/**
 * Byte-level helpers of the client's crypto layer: constant-time
 * comparison, left padding, big-endian encoding of SRP integers, the
 * server-proof check and the nonce-prefixed AES-GCM framing.
 */
module Crypt {
  import opened Wrappers
  import opened Platform

  /** The ASCII bytes of `s`, for strings of 7-bit characters. */
  function Ascii(s: string): (b: Bytes)
    requires forall i :: 0 <= i < |s| ==> s[i] as int < 128
    ensures |b| == |s|
    ensures forall i :: 0 <= i < |s| ==> b[i] as int == s[i] as int
  {
    seq(|s|, i requires 0 <= i < |s| => s[i] as int as byte)
  }

  /** The plaintext of the unlock challenge. */
  const UNLOCK_CHECK_BYTES: Bytes :=
    [117, 110, 108, 111, 99, 107, 45, 99, 104, 101, 99, 107, 45, 111, 107, 33]

  lemma UnlockCheckIsAscii()
    ensures |UNLOCK_CHECK_BYTES| == 16
    ensures UNLOCK_CHECK_BYTES == Ascii("unlock-check-ok!")
  {
    var s := "unlock-check-ok!";
    assert forall i :: 0 <= i < 16 ==> UNLOCK_CHECK_BYTES[i] as int == s[i] as int;
  }

  /* ---------------------------------------------------------------- */

  /** `timingSafeEqual`: OR-accumulates the XOR of every byte pair. */
  method TimingSafeEqual(a: Bytes, b: Bytes) returns (eq: bool)
    ensures eq <==> a == b
  {
    if |a| != |b| {
      return false;
    }
    var result: nat := 0;
    var i := 0;
    while i < |a|
      invariant 0 <= i <= |a|
      invariant result == 0 <==> a[..i] == b[..i]
    {
      assert a[..i + 1] == a[..i] + [a[i]] && b[..i + 1] == b[..i] + [b[i]];
      XorZeroIff(a[i] as nat, b[i] as nat);
      OrZeroIff(result, Xor(a[i] as nat, b[i] as nat));
      result := Or(result, Xor(a[i] as nat, b[i] as nat));
      i := i + 1;
    }
    assert a[..i] == a && b[..i] == b;
    return result == 0;
  }

  /** The `^` operator on non-negative numbers, one bit at a time from the lowest. */
  function Xor(x: nat, y: nat): nat
    decreases x + y
  {
    if x == 0 && y == 0 then 0 else 2 * Xor(x / 2, y / 2) + (x + y) % 2
  }

  /** The `|` operator on non-negative numbers, one bit at a time from the lowest. */
  function Or(x: nat, y: nat): nat
    decreases x + y
  {
    if x == 0 && y == 0 then 0 else 2 * Or(x / 2, y / 2) + (if x % 2 == 1 || y % 2 == 1 then 1 else 0)
  }

  /** Two numbers XOR to zero exactly when they are equal. */
  lemma {:induction false} XorZeroIff(x: nat, y: nat)
    ensures Xor(x, y) == 0 <==> x == y
    decreases x + y
  {
    if x != 0 || y != 0 {
      XorZeroIff(x / 2, y / 2);
      assert x == 2 * (x / 2) + x % 2 && y == 2 * (y / 2) + y % 2;
    }
  }

  /** An OR is zero exactly when both operands are. */
  lemma {:induction false} OrZeroIff(x: nat, y: nat)
    ensures Or(x, y) == 0 <==> x == 0 && y == 0
    decreases x + y
  {
    if x != 0 || y != 0 {
      OrZeroIff(x / 2, y / 2);
      assert x == 2 * (x / 2) + x % 2 && y == 2 * (y / 2) + y % 2;
    }
  }

  /* ---------------------------------------------------------------- */

  function Zeros(n: nat): (z: Bytes)
    ensures |z| == n
    ensures forall i :: 0 <= i < n ==> z[i] == 0
  {
    seq(n, _ => 0)
  }

  /** What `padUint8` returns: the input when long enough, else zeros then the input. */
  function Padded(arr: Bytes, length: nat): Bytes {
    if |arr| >= length then arr else Zeros(length - |arr|) + arr
  }

  /** The unsigned big-endian value of a byte string. */
  function BEValue(b: Bytes): nat {
    if b == [] then 0 else 256 * BEValue(b[..|b| - 1]) + b[|b| - 1] as nat
  }

  function Pow256(n: nat): (r: nat)
    ensures r >= 1
  {
    if n == 0 then 1 else 256 * Pow256(n - 1)
  }

  /** `padUint8`: allocates a zeroed buffer and copies the input to its tail. */
  method PadUint8(arr: Bytes, length: nat) returns (r: Bytes)
    ensures r == Padded(arr, length)
  {
    if |arr| >= length {
      return arr;
    }
    var padded := new byte[length];
    var k := 0;
    while k < length
      invariant 0 <= k <= length
      invariant forall j :: 0 <= j < k ==> padded[j] == 0
    {
      padded[k] := 0;
      k := k + 1;
    }
    var off := length - |arr|;
    var i := 0;
    while i < |arr|
      invariant 0 <= i <= |arr|
      invariant forall j :: 0 <= j < off ==> padded[j] == 0
      invariant forall j :: 0 <= j < i ==> padded[off + j] == arr[j]
    {
      padded[off + i] := arr[i];
      i := i + 1;
    }
    r := padded[..];
    assert r == Zeros(off) + arr by {
      assert forall j :: 0 <= j < off ==> r[j] == 0;
      assert forall j :: off <= j < length ==> r[j] == arr[j - off];
    }
  }

  lemma {:induction false} BEValueZerosPrefix(n: nat, b: Bytes)
    ensures BEValue(Zeros(n) + b) == BEValue(b)
    decreases |b|
  {
    if b == [] {
      assert Zeros(n) + b == Zeros(n);
      BEValueZeros(n);
    } else {
      var c := Zeros(n) + b;
      assert c[..|c| - 1] == Zeros(n) + b[..|b| - 1];
      BEValueZerosPrefix(n, b[..|b| - 1]);
    }
  }

  lemma {:induction false} BEValueZeros(n: nat)
    ensures BEValue(Zeros(n)) == 0
  {
    if n > 0 {
      assert Zeros(n)[..n - 1] == Zeros(n - 1);
      BEValueZeros(n - 1);
    }
  }

  /** Padding keeps the big-endian value and reaches the target length. */
  lemma PaddedValue(arr: Bytes, length: nat)
    ensures BEValue(Padded(arr, length)) == BEValue(arr)
    ensures |Padded(arr, length)| == if |arr| >= length then |arr| else length
    ensures |arr| < length ==> Padded(arr, length)[length - |arr|..] == arr
  {
    if |arr| < length {
      BEValueZerosPrefix(length - |arr|, arr);
    }
  }

  lemma {:induction false} BEValueBound(b: Bytes)
    ensures BEValue(b) < Pow256(|b|)
  {
    if b != [] {
      BEValueBound(b[..|b| - 1]);
    }
  }

  lemma DivMod256(q: nat, r: nat)
    requires r < 256
    ensures (256 * q + r) % 256 == r
    ensures (256 * q + r) / 256 == q
  {
  }

  /** A fixed-width big-endian encoding is injective. */
  lemma {:induction false} BEValueInjective(a: Bytes, b: Bytes)
    requires |a| == |b|
    requires BEValue(a) == BEValue(b)
    ensures a == b
  {
    if a != [] {
      var n := |a| - 1;
      DivMod256(BEValue(a[..n]), a[n] as nat);
      DivMod256(BEValue(b[..n]), b[n] as nat);
      assert a[n] as nat == b[n] as nat;
      BEValueInjective(a[..n], b[..n]);
      assert a == a[..n] + [a[n]] && b == b[..n] + [b[n]];
    }
  }

  /* ---------------------------------------------------------------- */

  /** The minimal big-endian encoding of `v`; empty for zero. */
  function MinimalBE(v: nat): (b: Bytes)
    decreases v
  {
    if v == 0 then [] else MinimalBE(v / 256) + [(v % 256) as byte]
  }

  lemma BEValueSnoc(b: Bytes, x: byte)
    ensures BEValue(b + [x]) == 256 * BEValue(b) + x as nat
  {
    assert (b + [x])[..|b|] == b;
  }

  /** The minimal encoding has the value `v` and, for `v > 0`, no leading zero byte. */
  lemma {:induction false} MinimalBEValue(v: nat)
    ensures BEValue(MinimalBE(v)) == v
    ensures v > 0 ==> |MinimalBE(v)| > 0 && MinimalBE(v)[0] != 0
    ensures v > 0 ==> Pow256(|MinimalBE(v)| - 1) <= v
    decreases v
  {
    if v > 0 {
      var q, r := v / 256, v % 256;
      DivMod(v);
      var m' := MinimalBE(q);
      var m := MinimalBE(v);
      assert m == m' + [r as byte];
      MinimalBEValue(q);
      BEValueSnoc(m', r as byte);
      if q > 0 {
        assert |m| - 1 == |m'|;
        Pow256Step(|m'| - 1, q);
      } else {
        assert m == [r as byte];
      }
    }
  }

  lemma DivMod(v: nat)
    ensures v == 256 * (v / 256) + v % 256
    ensures 0 <= v % 256 < 256
  {
  }

  lemma Pow256Step(k: nat, q: nat)
    requires Pow256(k) <= q
    ensures Pow256(k + 1) <= 256 * q
  {
  }

  function Reverse(s: Bytes): (r: Bytes)
    ensures |r| == |s|
    ensures forall i :: 0 <= i < |s| ==> r[i] == s[|s| - 1 - i]
  {
    if s == [] then [] else Reverse(s[1..]) + [s[0]]
  }

  lemma ReverseSnoc(s: Bytes, x: byte)
    ensures Reverse(s + [x]) == [x] + Reverse(s)
  {
    var l, r := Reverse(s + [x]), [x] + Reverse(s);
    assert |l| == |r|;
    forall i | 0 <= i < |l| ensures l[i] == r[i] {
      if i > 0 {
        assert l[i] == (s + [x])[|s| - i];
      }
    }
  }

  /**
   * What `bigintToUint8Array` returns. Zero is `length` zeros (one
   * without a length). A negative value never enters the loop, so its
   * byte list is empty. A longer encoding than `length` throws.
   */
  function BigintToBytes(value: int, length: Option<nat>): Result<Bytes, string> {
    if value == 0 then Success(Zeros(length.GetOr(1)))
    else
      var bytes := if value > 0 then MinimalBE(value) else [];
      match length
      case None => Success(bytes)
      case Some(n) =>
        if |bytes| > n then Failure("bigint too large to fit in the target length")
        else Success(Zeros(n - |bytes|) + bytes)
  }

  /** `bigintToUint8Array`: pushes low bytes while the value is positive, then reverses. */
  method BigintToUint8Array(value: int, length: Option<nat>) returns (r: Result<Bytes, string>)
    ensures r == BigintToBytes(value, length)
  {
    if value == 0 {
      var z := ZeroFilled(length.GetOr(1));
      return Success(z);
    }
    var bytes: Bytes := [];
    if value > 0 {
      bytes := LowBytesFirst(value);
      bytes := Reverse(bytes);
    }
    assert bytes == if value > 0 then MinimalBE(value) else [];
    match length {
      case None =>
        return Success(bytes);
      case Some(n) =>
        if |bytes| > n {
          return Failure("bigint too large to fit in the target length");
        }
        var padded := PadUint8(bytes, n);
        assert Zeros(0) + bytes == bytes;
        return Success(padded);
    }
  }

  /** A fresh `Uint8Array(n)`: `n` zero bytes. */
  method ZeroFilled(n: nat) returns (z: Bytes)
    ensures z == Zeros(n)
  {
    var buf := new byte[n];
    var k := 0;
    while k < n
      invariant 0 <= k <= n
      invariant forall j :: 0 <= j < k ==> buf[j] == 0
    {
      buf[k] := 0;
      k := k + 1;
    }
    z := buf[..];
  }

  /** The push loop of `bigintToUint8Array`: the bytes of `value`, least significant first. */
  method LowBytesFirst(value: nat) returns (bytes: Bytes)
    ensures Reverse(bytes) == MinimalBE(value)
  {
    bytes := [];
    var temp := value;
    while temp > 0
      invariant MinimalBE(value) == MinimalBE(temp) + Reverse(bytes)
    {
      ghost var before := bytes;
      bytes := bytes + [(temp % 256) as byte];
      ReverseSnoc(before, (temp % 256) as byte);
      temp := temp / 256;
    }
  }

  /** With a length, the result is exactly that long and holds the value, or the call throws. */
  lemma BigintToBytesFixedLength(value: nat, n: nat)
    ensures BigintToBytes(value, Some(n)).Success? <==> value < Pow256(n)
    ensures BigintToBytes(value, Some(n)).Success? ==>
      |BigintToBytes(value, Some(n)).value| == n
      && BEValue(BigintToBytes(value, Some(n)).value) == value
  {
    MinimalBEValue(value);
    if value > 0 {
      var m := MinimalBE(value);
      BEValueBound(m);
      if |m| > n {
        Pow256Mono(n, |m| - 1);
      } else {
        Pow256Mono(|m|, n);
        BEValueZerosPrefix(n - |m|, m);
      }
    } else {
      BEValueZeros(n);
    }
  }

  /** Without a length, a positive value gets its minimal big-endian encoding. */
  lemma BigintToBytesMinimal(value: nat)
    ensures value > 0 ==> BigintToBytes(value, None) == Success(MinimalBE(value))
    ensures value == 0 ==> BigintToBytes(value, None) == Success([0])
    ensures BEValue(BigintToBytes(value, None).value) == value
  {
    MinimalBEValue(value);
    if value == 0 {
      assert Zeros(1) == [0];
      assert BEValue([0]) == 256 * BEValue([]) + 0;
    }
  }

  lemma {:induction false} Pow256Mono(a: nat, b: nat)
    requires a <= b
    ensures Pow256(a) <= Pow256(b)
    decreases b
  {
    if a < b {
      Pow256Mono(a, b - 1);
    }
  }

  /* ---------------------------------------------------------------- */

  /** `Math.ceil(bitLen / 8)`. */
  function ByteLen(bitLen: nat): nat {
    (bitLen + 7) / 8
  }

  /** `SRP_CheckM2`: pads both the expected and the received proof, then compares. */
  method SrpCheckM2(expected: int, received: Bytes, bitLen: nat) returns (ok: bool)
    ensures ok <==> Padded(BigintToBytes(expected, None).value, ByteLen(bitLen))
                    == Padded(received, ByteLen(bitLen))
  {
    var enc := BigintToUint8Array(expected, None);
    assert enc.Success?;
    var left := PadUint8(enc.value, ByteLen(bitLen));
    var right := PadUint8(received, ByteLen(bitLen));
    ok := TimingSafeEqual(left, right);
  }

  /**
   * For proofs that fit the group's byte length, `SRP_CheckM2` accepts
   * exactly a received proof of the expected value.
   */
  lemma SrpCheckM2Meaning(expected: nat, received: Bytes, bitLen: nat)
    requires bitLen > 0
    requires |received| <= ByteLen(bitLen)
    requires expected < Pow256(ByteLen(bitLen))
    ensures Padded(BigintToBytes(expected, None).value, ByteLen(bitLen)) == Padded(received, ByteLen(bitLen))
            <==> BEValue(received) == expected
  {
    var n := ByteLen(bitLen);
    var e := BigintToBytes(expected, None).value;
    BigintToBytesMinimal(expected);
    if expected > 0 {
      MinimalBEFits(expected, n);
    }
    assert |e| <= n && BEValue(e) == expected;
    PaddedEqualIff(e, received, n);
  }

  /** A positive value below `256^n` has a minimal encoding of at most `n` bytes. */
  lemma MinimalBEFits(v: nat, n: nat)
    requires 0 < v < Pow256(n)
    ensures |MinimalBE(v)| <= n
  {
    MinimalBEValue(v);
  }

  /** Two operands no longer than `n` pad to the same `n` bytes iff their values agree. */
  lemma PaddedEqualIff(a: Bytes, b: Bytes, n: nat)
    requires |a| <= n && |b| <= n
    ensures Padded(a, n) == Padded(b, n) <==> BEValue(a) == BEValue(b)
  {
    PaddedValue(a, n);
    PaddedValue(b, n);
    if BEValue(a) == BEValue(b) {
      BEValueInjective(Padded(a, n), Padded(b, n));
    }
  }

  /* ---------------------------------------------------------------- */

  /** The buffer `encrypt` returns: the nonce followed by the ciphertext. */
  function Sealed(p: Prims, key: Key, iv: Nonce, payload: Bytes): Bytes {
    iv + p.seal(key, iv, payload)
  }

  /** `encrypt`: copies the nonce and the ciphertext into one fresh buffer. */
  method Encrypt(p: Prims, payload: Bytes, key: Key, iv: Nonce) returns (combined: Bytes)
    ensures combined == Sealed(p, key, iv, payload)
    ensures combined[..12] == iv
  {
    var ciphertext := p.seal(key, iv, payload);
    var buf := new byte[|iv| + |ciphertext|];
    var i := 0;
    while i < |iv|
      invariant 0 <= i <= |iv|
      invariant forall j :: 0 <= j < i ==> buf[j] == iv[j]
    {
      buf[i] := iv[i];
      i := i + 1;
    }
    i := 0;
    while i < |ciphertext|
      invariant 0 <= i <= |ciphertext|
      invariant forall j :: 0 <= j < |iv| ==> buf[j] == iv[j]
      invariant forall j :: 0 <= j < i ==> buf[|iv| + j] == ciphertext[j]
    {
      buf[|iv| + i] := ciphertext[i];
      i := i + 1;
    }
    combined := buf[..];
    assert combined == iv + ciphertext by {
      assert forall j :: |iv| <= j < |combined| ==> combined[j] == ciphertext[j - |iv|];
    }
  }

  /** `decrypt`: the first 12 bytes (fewer if the buffer is short) are the nonce, the rest the ciphertext. */
  function Decrypt(p: Prims, data: Bytes, key: Key): Option<Bytes> {
    var cut := if |data| < 12 then |data| else 12;
    p.open(key, data[..cut], data[cut..])
  }

  lemma DecryptInvertsEncrypt(p: Prims, key: Key, iv: Nonce, payload: Bytes)
    requires Lawful(p)
    ensures Decrypt(p, Sealed(p, key, iv, payload), key) == Some(payload)
  {
    var s := Sealed(p, key, iv, payload);
    assert s[..12] == iv && s[12..] == p.seal(key, iv, payload);
  }
}
