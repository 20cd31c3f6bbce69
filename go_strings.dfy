/** The pieces of Go's `strings` package the handlers use: `TrimSpace` and splitting on a separator. */
module GoStrings {
  /** `unicode.IsSpace` on the Latin-1 range: tab, newline, vertical tab, form feed, carriage return, space, NEL, NBSP. */
  predicate IsSpace(c: char) {
    c == '\t' || c == '\n' || c == '\U{B}' || c == '\U{C}' || c == '\r' || c == ' ' || c == '\U{85}' || c == '\U{A0}'
  }

  /** The end of the run of white space that starts at `k`: where `TrimSpace` starts its slice. */
  function LeftEnd(s: string, k: nat): (n: nat)
    requires k <= |s|
    ensures k <= n <= |s|
    ensures n == |s| || !IsSpace(s[n])
    ensures forall j :: k <= j < n ==> IsSpace(s[j])
    decreases |s| - k
  {
    if k < |s| && IsSpace(s[k]) then LeftEnd(s, k + 1) else k
  }

  /** The start of the run of white space that ends at `k`, stopping at `lo`: where the slice stops. */
  function RightEnd(s: string, lo: nat, k: nat): (n: nat)
    requires lo <= k <= |s|
    ensures lo <= n <= k
    ensures n == lo || !IsSpace(s[n - 1])
    ensures forall j :: n <= j < k ==> IsSpace(s[j])
    decreases k - lo
  {
    if k > lo && IsSpace(s[k - 1]) then RightEnd(s, lo, k - 1) else k
  }

  /** `r` is the slice of `s` at `i`, and only white space lies outside it. */
  predicate TrimmedAt(s: string, r: string, i: int) {
    && 0 <= i <= |s| - |r| && r == s[i..i + |r|]
    && (forall j :: 0 <= j < i ==> IsSpace(s[j]))
    && (forall j :: i + |r| <= j < |s| ==> IsSpace(s[j]))
  }

  /**
   * `strings.TrimSpace`: the longest slice of `s` with no white space at
   * either end; everything cut off is white space.
   */
  function TrimSpace(s: string): (r: string)
    ensures r == [] || (!IsSpace(r[0]) && !IsSpace(r[|r| - 1]))
    ensures exists i :: TrimmedAt(s, r, i)
  {
    var lo := LeftEnd(s, 0);
    var hi := RightEnd(s, lo, |s|);
    assert TrimmedAt(s, s[lo..hi], lo);
    s[lo..hi]
  }

  /** `strings.Split(s, sep)` for a one-character separator: as many pieces as separators plus one. */
  function Split(s: string, sep: char): (pieces: seq<string>)
    ensures |pieces| >= 1
    ensures forall k :: 0 <= k < |pieces| ==> sep !in pieces[k]
  {
    if sep !in s then [s]
    else
      var i := FirstIndex(s, sep);
      [s[..i]] + Split(s[i + 1..], sep)
  }

  /** Every character of a piece is a character of the input. */
  lemma {:induction false} SplitChars(s: string, sep: char, k: nat)
    requires k < |Split(s, sep)|
    ensures forall j :: 0 <= j < |Split(s, sep)[k]| ==> Split(s, sep)[k][j] in s
    decreases |s|
  {
    if sep in s {
      var i := FirstIndex(s, sep);
      if k > 0 {
        SplitChars(s[i + 1..], sep, k - 1);
        forall j | 0 <= j < |Split(s, sep)[k]|
          ensures Split(s, sep)[k][j] in s
        {
          var c := Split(s, sep)[k][j];
          assert c in s[i + 1..];
          var m :| 0 <= m < |s[i + 1..]| && s[i + 1..][m] == c;
          assert s[i + 1 + m] == c;
        }
      } else {
        assert forall j :: 0 <= j < i ==> s[..i][j] == s[j];
      }
    }
  }

  function FirstIndex(s: string, c: char): (i: nat)
    requires c in s
    ensures i < |s| && s[i] == c && c !in s[..i]
  {
    if s[0] == c then 0
    else
      assert s == [s[0]] + s[1..];
      var j := FirstIndex(s[1..], c);
      assert s[..j + 1] == [s[0]] + s[1..][..j];
      j + 1
  }

  /** The pieces joined back with the separator. */
  function Join(pieces: seq<string>, sep: char): string
    requires |pieces| >= 1
  {
    if |pieces| == 1 then pieces[0] else pieces[0] + [sep] + Join(pieces[1..], sep)
  }

  /** Splitting loses nothing: joining the pieces with the separator gives the input back. */
  lemma {:induction false} SplitJoin(s: string, sep: char)
    ensures Join(Split(s, sep), sep) == s
    decreases |s|
  {
    if sep in s {
      var i := FirstIndex(s, sep);
      SplitJoin(s[i + 1..], sep);
      assert s == s[..i] + [sep] + s[i + 1..];
    }
  }
}
