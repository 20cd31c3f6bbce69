/**
 * General client helpers: URL joining, clamping, the byte/char loops
 * around `btoa`/`atob`, and the colour parsing of `isColorDark`.
 */
module ClientUtils {
  import opened Wrappers
  import opened Platform

  /* ------------------------------ joinUrl ------------------------------ */

  /** ASCII lower-casing, the only folding an `i` regular expression applies to these letters. */
  function LowerAscii(c: char): char {
    if 'A' <= c <= 'Z' then (c as int + 32) as char else c
  }

  /** Case-insensitive prefix test. */
  predicate StartsWithIgnoreCase(s: string, prefix: string) {
    |prefix| <= |s| && forall i :: 0 <= i < |prefix| ==> LowerAscii(s[i]) == LowerAscii(prefix[i])
  }

  /** `/^https?:\/\//i`. */
  predicate HasScheme(s: string) {
    StartsWithIgnoreCase(s, "http://") || StartsWithIgnoreCase(s, "https://")
  }

  function WithScheme(base: string): string {
    if HasScheme(base) then base else "https://" + base
  }

  function DropTrailingSlash(s: string): string {
    if |s| > 0 && s[|s| - 1] == '/' then s[..|s| - 1] else s
  }

  function DropLeadingSlash(s: string): string {
    if |s| > 0 && s[0] == '/' then s[1..] else s
  }

  /** The URL `joinUrl` builds. */
  function JoinedUrl(base: string, path: string): string {
    DropTrailingSlash(WithScheme(base)) + "/" + DropLeadingSlash(path)
  }

  /** `joinUrl`: reassigns `base` and `path` step by step. */
  method JoinUrl(base: string, path: string) returns (r: string)
    ensures r == JoinedUrl(base, path)
  {
    var b, p := base, path;
    if !HasScheme(b) {
      b := "https://" + b;
    }
    if |b| > 0 && b[|b| - 1] == '/' {
      b := b[..|b| - 1];
    }
    if |p| > 0 && p[0] == '/' {
      p := p[1..];
    }
    r := b + "/" + p;
  }

  lemma PrefixKeepsScheme(s: string, t: string)
    requires HasScheme(s)
    requires |s| <= |t| && t[..|s|] == s
    ensures HasScheme(t)
  {
    assert forall i :: 0 <= i < |s| ==> t[i] == s[i];
  }

  /** The joined URL always carries an http(s) scheme, even for an empty base. */
  lemma JoinedUrlHasScheme(base: string, path: string)
    ensures HasScheme(JoinedUrl(base, path))
  {
    var w := WithScheme(base);
    var r := JoinedUrl(base, path);
    if HasScheme(base) {
      if StartsWithIgnoreCase(base, "https://") {
        if |base| == 8 && base[7] == '/' {
          // "https://" loses its last slash and gets it back
          assert forall i :: 0 <= i < 8 ==> r[i] == base[i];
        } else {
          assert r[..8] == base[..8];
        }
      } else {
        if |base| == 7 && base[6] == '/' {
          assert forall i :: 0 <= i < 7 ==> r[i] == base[i];
        } else {
          assert r[..7] == base[..7];
        }
      }
    } else {
      var h := "https://";
      assert w[..8] == h;
      assert forall i :: 0 <= i < 8 ==> r[i] == h[i];
    }
  }

  /** A schemed base without a trailing slash and a path without a leading one are joined by one slash. */
  lemma JoinedUrlPlain(base: string, path: string)
    requires HasScheme(base)
    requires |base| > 0 && base[|base| - 1] != '/'
    requires |path| == 0 || path[0] != '/'
    ensures JoinedUrl(base, path) == base + "/" + path
  {
  }

  /** Exactly one trailing slash of the base and one leading slash of the path are dropped. */
  lemma JoinedUrlSlashes(base: string, path: string)
    requires HasScheme(base)
    ensures JoinedUrl(base + "/", path) == base + "/" + DropLeadingSlash(path)
    ensures JoinedUrl(base, "/" + path) == DropTrailingSlash(base) + "/" + path
  {
    var b := base + "/";
    assert b[..|base|] == base;
    PrefixKeepsScheme(base, b);
  }

  /* ------------------------------- clamp ------------------------------- */

  /** `clamp`: `Math.max(min, Math.min(value, max))`. */
  function Clamp(value: int, min: int, max: int): (r: int)
    ensures min <= max ==> min <= r <= max
    ensures min <= value <= max ==> r == value
    ensures value < min ==> r == min
    ensures min <= max < value ==> r == max
    ensures max < min ==> r == min
  {
    var inner := if value < max then value else max;
    if min > inner then min else inner
  }

  /* -------------------------- base64 helpers --------------------------- */

  /** `arrayBufferToBase64`: one char per byte, then `btoa`. */
  method ArrayBufferToBase64(p: Prims, bytes: Bytes) returns (r: string)
    ensures Btoa(p, BinaryString(bytes)) == Some(r)
    ensures r == p.encode64(bytes)
  {
    var binary: string := "";
    var i := 0;
    while i < |bytes|
      invariant 0 <= i <= |bytes|
      invariant binary == BinaryString(bytes[..i])
    {
      binary := binary + [bytes[i] as char];
      i := i + 1;
    }
    assert bytes[..i] == bytes;
    CharCodesOfBinaryString(bytes);
    r := Btoa(p, binary).value;
  }

  /** `uint8ArrayFromBase64`: `atob`, then one byte per char; `None` is the exception `atob` throws. */
  method Uint8ArrayFromBase64(p: Prims, b64: string) returns (r: Option<Bytes>)
    ensures r == p.decode64(b64)
  {
    var binary := Atob(p, b64);
    if binary.None? {
      return None;
    }
    var s := binary.value;
    var bytes := new byte[|s|];
    var i := 0;
    while i < |s|
      invariant 0 <= i <= |s|
      invariant forall j :: 0 <= j < i ==> bytes[j] == CharCodes(s)[j]
    {
      bytes[i] := (s[i] as int % 256) as byte;
      i := i + 1;
    }
    assert bytes[..] == CharCodes(s);
    CharCodesOfBinaryString(p.decode64(b64).value);
    return Some(bytes[..]);
  }

  /** The byte/char pair round-trips whenever `atob` inverts `btoa`. */
  lemma Base64HelpersRoundTrip(p: Prims, bytes: Bytes)
    requires Lawful(p)
    ensures Atob(p, Btoa(p, BinaryString(bytes)).value) == Some(BinaryString(bytes))
    ensures CharCodes(Atob(p, Btoa(p, BinaryString(bytes)).value).value) == bytes
  {
    CharCodesOfBinaryString(bytes);
  }

  /* ---------------------------- isColorDark ---------------------------- */

  predicate IsHexDigit(c: char) {
    '0' <= c <= '9' || 'a' <= c <= 'f' || 'A' <= c <= 'F'
  }

  function HexValue(c: char): nat
    requires IsHexDigit(c)
  {
    if '0' <= c <= '9' then c as int - '0' as int
    else if 'a' <= c <= 'f' then c as int - 'a' as int + 10
    else c as int - 'A' as int + 10
  }

  predicate IsDigit(c: char) {
    '0' <= c <= '9'
  }

  /**
   * ECMAScript's `StrWhiteSpaceChar`, which `parseInt` skips at the front:
   * the white-space code points (tab, vertical tab, form feed, space,
   * no-break space, the byte-order mark and the space separators of
   * Unicode category Zs) and the line terminators (line feed, carriage
   * return, line separator, paragraph separator).
   */
  predicate IsSpace(c: char) {
    || c == '\t' || c == '\U{B}' || c == '\U{C}' || c == ' ' || c == '\U{A0}' || c == '\U{FEFF}'
    || c == '\U{1680}' || ('\U{2000}' <= c <= '\U{200A}') || c == '\U{202F}' || c == '\U{205F}' || c == '\U{3000}'
    || c == '\n' || c == '\r' || c == '\U{2028}' || c == '\U{2029}'
  }

  function TrimStart(s: string): string {
    if |s| > 0 && IsSpace(s[0]) then TrimStart(s[1..]) else s
  }

  /** The value of the longest hex-digit prefix; `None` when there is no digit. */
  function HexPrefixValue(s: string): Option<nat> {
    HexPrefixAcc(s, 0, false)
  }

  function HexPrefixAcc(s: string, acc: nat, any: bool): Option<nat> {
    if |s| > 0 && IsHexDigit(s[0]) then HexPrefixAcc(s[1..], 16 * acc + HexValue(s[0]), true)
    else if any then Some(acc) else None
  }

  /** `parseInt(s, 16)`; `None` is `NaN`. */
  function ParseIntHex(s: string): Option<int> {
    var t := TrimStart(s);
    var neg := |t| > 0 && t[0] == '-';
    var u := if |t| > 0 && (t[0] == '-' || t[0] == '+') then t[1..] else t;
    var w := if |u| >= 2 && u[0] == '0' && (u[1] == 'x' || u[1] == 'X') then u[2..] else u;
    match HexPrefixValue(w)
    case None => None
    case Some(v) => var n: int := v; Some(if neg then -n else n)
  }

  function RunLength(s: string): (k: nat)
    ensures k <= |s|
    ensures forall i :: 0 <= i < k ==> IsDigit(s[i])
    ensures k < |s| ==> !IsDigit(s[k])
  {
    if |s| > 0 && IsDigit(s[0]) then 1 + RunLength(s[1..]) else 0
  }

  /** `s.match(/\d+/g)`: the maximal runs of decimal digits, left to right. */
  function DigitRuns(s: string): (runs: seq<string>)
    ensures forall k :: 0 <= k < |runs| ==> AllDigits(runs[k])
    decreases |s|
  {
    if s == [] then []
    else if IsDigit(s[0]) then
      var k := RunLength(s);
      [s[..k]] + DigitRuns(s[k..])
    else DigitRuns(s[1..])
  }

  predicate AllDigits(t: string) {
    |t| > 0 && forall i :: 0 <= i < |t| ==> IsDigit(t[i])
  }

  predicate NoDigits(t: string) {
    forall i :: 0 <= i < |t| ==> !IsDigit(t[i])
  }

  /** `gaps[0] + runs[0] + gaps[1] + ... + runs[n-1] + gaps[n]`. */
  function Weave(gaps: seq<string>, runs: seq<string>): string
    requires |gaps| == |runs| + 1
    decreases |runs|
  {
    if runs == [] then gaps[0] else gaps[0] + runs[0] + Weave(gaps[1..], runs[1..])
  }

  /** The stretches around `n` runs: free of digits, and non-empty between two runs. */
  predicate GapsFor(gaps: seq<string>, n: nat) {
    && |gaps| == n + 1
    && (forall k :: 0 <= k < |gaps| ==> NoDigits(gaps[k]))
    && (forall k :: 0 < k < n ==> gaps[k] != [])
  }

  /** The digit-free stretches `DigitRuns` steps over, in order. */
  ghost function GapsOf(s: string): (gaps: seq<string>)
    ensures |gaps| == |DigitRuns(s)| + 1
    decreases |s|
  {
    if s == [] then [[]]
    else if IsDigit(s[0]) then [[]] + GapsOf(s[RunLength(s)..])
    else
      var g := GapsOf(s[1..]);
      [[s[0]] + g[0]] + g[1..]
  }

  /** Every string is its digit runs woven with digit-free stretches, non-empty between runs. */
  lemma {:induction false} DigitRunsWeave(s: string)
    ensures GapsFor(GapsOf(s), |DigitRuns(s)|)
    ensures s == Weave(GapsOf(s), DigitRuns(s))
    decreases |s|
  {
    if s != [] {
      if IsDigit(s[0]) {
        var k := RunLength(s);
        var t := s[k..];
        DigitRunsWeave(t);
        if t != [] {
          assert !IsDigit(t[0]);
          assert GapsOf(t)[0] != [];
        }
        assert s == s[..k] + t;
      } else {
        var t := s[1..];
        DigitRunsWeave(t);
        var g := GapsOf(t);
        var gaps := GapsOf(s);
        assert gaps[1..] == g[1..];
        assert NoDigits(gaps[0]) by {
          assert gaps[0] == [s[0]] + g[0];
        }
        if DigitRuns(t) != [] {
          assert gaps[0] + DigitRuns(t)[0] == [s[0]] + (g[0] + DigitRuns(t)[0]);
        }
        assert s == [s[0]] + t;
      }
    }
  }

  /** A digit-free prefix contributes no run. */
  lemma {:induction false} DigitRunsSkip(g: string, t: string)
    requires NoDigits(g)
    ensures DigitRuns(g + t) == DigitRuns(t)
    decreases |g|
  {
    if g != [] {
      assert (g + t)[1..] == g[1..] + t;
      DigitRunsSkip(g[1..], t);
    } else {
      assert g + t == t;
    }
  }

  lemma {:induction false} RunLengthOf(r: string, t: string)
    requires forall i :: 0 <= i < |r| ==> IsDigit(r[i])
    requires t == [] || !IsDigit(t[0])
    ensures RunLength(r + t) == |r|
    decreases |r|
  {
    if r != [] {
      assert (r + t)[1..] == r[1..] + t;
      RunLengthOf(r[1..], t);
    }
  }

  /** A run followed by a non-digit (or by nothing) is matched whole. */
  lemma DigitRunsRun(r: string, t: string)
    requires AllDigits(r)
    requires t == [] || !IsDigit(t[0])
    ensures DigitRuns(r + t) == [r] + DigitRuns(t)
  {
    RunLengthOf(r, t);
    assert (r + t)[..|r|] == r && (r + t)[|r|..] == t;
  }

  /**
   * The runs are determined: any split of `s` into digit runs woven with
   * digit-free stretches, non-empty between runs, is the one `DigitRuns`
   * returns. With `DigitRunsWeave`, this says `DigitRuns` is exactly the
   * list of matches of `/\d+/g`.
   */
  lemma {:induction false} DigitRunsUnique(s: string, gaps: seq<string>, runs: seq<string>)
    requires GapsFor(gaps, |runs|)
    requires forall k :: 0 <= k < |runs| ==> AllDigits(runs[k])
    requires s == Weave(gaps, runs)
    ensures DigitRuns(s) == runs
    decreases |runs|
  {
    if runs == [] {
      DigitRunsSkip(gaps[0], []);
      assert gaps[0] + [] == gaps[0];
    } else {
      var rest := Weave(gaps[1..], runs[1..]);
      assert GapsFor(gaps[1..], |runs| - 1);
      DigitRunsUnique(rest, gaps[1..], runs[1..]);
      if |runs| > 1 {
        assert rest == gaps[1] + runs[1] + Weave(gaps[2..], runs[2..]);
        assert rest[0] == gaps[1][0];
      }
      DigitRunsRun(runs[0], rest);
      assert s == gaps[0] + (runs[0] + rest);
      DigitRunsSkip(gaps[0], runs[0] + rest);
    }
  }

  function DecimalValue(s: string): nat {
    if s == [] then 0
    else if IsDigit(s[|s| - 1]) then 10 * DecimalValue(s[..|s| - 1]) + (s[|s| - 1] as int - '0' as int)
    else 10 * DecimalValue(s[..|s| - 1])
  }

  predicate StartsWith(s: string, prefix: string) {
    |prefix| <= |s| && s[..|prefix|] == prefix
  }

  datatype Rgb = Rgb(r: Option<int>, g: Option<int>, b: Option<int>)

  /** The colour channels `isColorDark` reads, or `None` where it returns `false` early. */
  function ParseColor(color: string): Option<Rgb> {
    if StartsWith(color, "#") then
      var hex := color[1..];
      if |hex| == 3 then
        Some(Rgb(ParseIntHex([hex[0], hex[0]]), ParseIntHex([hex[1], hex[1]]), ParseIntHex([hex[2], hex[2]])))
      else if |hex| == 6 then
        Some(Rgb(ParseIntHex(hex[0..2]), ParseIntHex(hex[2..4]), ParseIntHex(hex[4..6])))
      else None
    else if StartsWith(color, "rgb") then
      var parts := DigitRuns(color);
      if |parts| < 3 then None
      else Some(Rgb(Some(DecimalValue(parts[0])), Some(DecimalValue(parts[1])), Some(DecimalValue(parts[2]))))
    else None
  }

  /** The relative luminance `isColorDark` computes, exactly. */
  function Luminance(r: int, g: int, b: int): real {
    0.2126 * r as real + 0.7152 * g as real + 0.0722 * b as real
  }

  /** `isColorDark`: luminance below 128; a `NaN` channel makes the comparison false. */
  function IsColorDark(color: string): (dark: bool)
    ensures dark ==> ParseColor(color).Some?
    ensures !StartsWith(color, "#") && !StartsWith(color, "rgb") ==> !dark
    ensures StartsWith(color, "#") && |color| - 1 != 3 && |color| - 1 != 6 ==> !dark
    ensures !StartsWith(color, "#") && StartsWith(color, "rgb") && |DigitRuns(color)| < 3 ==> !dark
  {
    match ParseColor(color)
    case None => false
    case Some(Rgb(Some(r), Some(g), Some(b))) => Luminance(r, g, b) < 128.0
    case Some(_) => false
  }

  /** A three-digit hex colour reads as the six-digit colour with every digit doubled. */
  lemma ShortHexDoubles(h0: char, h1: char, h2: char)
    ensures ParseColor(['#', h0, h1, h2]) == ParseColor(['#', h0, h0, h1, h1, h2, h2])
  {
    var long := ['#', h0, h0, h1, h1, h2, h2];
    assert StartsWith(long, "#");
    var hex := long[1..];
    assert hex[0..2] == [h0, h0] && hex[2..4] == [h1, h1] && hex[4..6] == [h2, h2];
  }

  /** Two-character hex channels are read as two hex digits. */
  lemma HexPairValue(a: char, b: char)
    requires IsHexDigit(a) && IsHexDigit(b)
    ensures ParseIntHex([a, b]) == Some(16 * HexValue(a) + HexValue(b))
  {
    var s := [a, b];
    assert TrimStart(s) == s;
    assert s[1..] == [b];
    assert [b][1..] == [];
    assert HexPrefixAcc([], 16 * HexValue(a) + HexValue(b), true) == Some(16 * HexValue(a) + HexValue(b));
    assert HexPrefixAcc([b], HexValue(a), true) == Some(16 * HexValue(a) + HexValue(b));
    assert HexPrefixAcc(s, 0, false) == HexPrefixAcc([b], 16 * 0 + HexValue(a), true);
  }

  /** A six-digit hex colour is dark exactly when the luminance of its three byte values is below 128. */
  lemma HexColorDark(h: string)
    requires |h| == 6 && forall i :: 0 <= i < 6 ==> IsHexDigit(h[i])
    ensures IsColorDark("#" + h) <==>
      Luminance(16 * HexValue(h[0]) + HexValue(h[1]), 16 * HexValue(h[2]) + HexValue(h[3]),
                16 * HexValue(h[4]) + HexValue(h[5])) < 128.0
  {
    var color := "#" + h;
    assert StartsWith(color, "#") && color[1..] == h;
    assert h[0..2] == [h[0], h[1]] && h[2..4] == [h[2], h[3]] && h[4..6] == [h[4], h[5]];
    HexPairValue(h[0], h[1]);
    HexPairValue(h[2], h[3]);
    HexPairValue(h[4], h[5]);
  }

  /** An `rgb(...)` colour with three numbers is dark exactly when the luminance of the first three is below 128. */
  lemma RgbColorDark(color: string)
    requires StartsWith(color, "rgb") && |DigitRuns(color)| >= 3
    ensures var runs := DigitRuns(color);
      IsColorDark(color) <==> Luminance(DecimalValue(runs[0]), DecimalValue(runs[1]), DecimalValue(runs[2])) < 128.0
  {
    assert color[0] == 'r';
  }

  /** `parseInt` skips leading white space, so a channel such as "\u00A0f" reads as the single digit after it. */
  lemma SpacedHexChannel(c: char, d: char)
    requires IsSpace(c) && IsHexDigit(d)
    ensures ParseIntHex([c, d]) == Some(HexValue(d))
  {
    var s := [c, d];
    assert s[1..] == [d] && [d][1..] == [];
    assert TrimStart([d]) == [d];
    assert TrimStart(s) == [d];
    assert HexPrefixAcc([d], 0, false) == HexPrefixAcc([], HexValue(d), true);
  }
}
