/**
 * Primitives the client and the server call but do not implement:
 * AES-GCM, gzip, UTF-8, JSON, ISO dates, base64 and Argon2. Each is a
 * field of `Prims`; `Lawful` collects the inverse laws the proofs use.
 */
module Platform {
  import opened Wrappers
  import opened Types

  /** An octet, as a `Uint8Array` element or a Go `byte` holds it. */
  newtype byte = x: int | 0 <= x < 256
  type Bytes = seq<byte>

  /** An AES-GCM initialisation vector as `encrypt` draws it: 12 random bytes. */
  type Nonce = s: Bytes | |s| == 12 witness [0, 0, 0, 0, 0, 0, 0, 0, 0, 0, 0, 0]

  /** A `CryptoKey`, identified by the raw bytes it was imported from. */
  datatype Key = Key(raw: Bytes)

  datatype Prims = Prims(
    /** `crypto.subtle.encrypt` with AES-GCM: key, iv, plaintext. */
    seal: (Key, Bytes, Bytes) -> Bytes,
    /** `crypto.subtle.decrypt`; `None` is a rejected promise. */
    open: (Key, Bytes, Bytes) -> Option<Bytes>,
    compress: Bytes -> Bytes,
    /** `None` is a stream that fails to inflate. */
    decompress: Bytes -> Option<Bytes>,
    /** `TextEncoder.encode` and `TextDecoder.decode`. */
    utf8Encode: string -> Bytes,
    utf8Decode: Bytes -> string,
    /** `JSON.stringify` and `JSON.parse` of one event and of an event list. */
    stringifyEvent: RawCalendarEvent -> string,
    parseEvent: string -> Option<RawCalendarEvent>,
    stringifyEvents: seq<RawCalendarEvent> -> string,
    parseEvents: string -> Option<seq<RawCalendarEvent>>,
    /** `JSON.stringify` of a pending-change list. */
    stringifyChanges: seq<EventChange> -> string,
    /** `DateTime.toISO` (what `JSON.stringify` emits) and `DateTime.fromISO`. */
    toIso: int -> string,
    fromIso: string -> int,
    /** Standard base64 with padding: Go's `StdEncoding`, the browser's `btoa`/`atob`. */
    encode64: Bytes -> string,
    decode64: string -> Option<Bytes>,
    /** The client's `uuidToBase64`, which is not part of this model. */
    uuidToBase64: string -> string,
    /** Argon2id in the worker, imported as an AES-GCM key. */
    deriveKey: (string, Bytes) -> Key)

  /** The inverse laws of the primitives. */
  ghost predicate Lawful(p: Prims) {
    && (forall k, iv, m :: |iv| == 12 ==> p.open(k, iv, p.seal(k, iv, m)) == Some(m))
    && (forall b :: p.decompress(p.compress(b)) == Some(b))
    && (forall s :: p.utf8Decode(p.utf8Encode(s)) == s)
    && (forall r :: p.parseEvent(p.stringifyEvent(r)) == Some(r))
    && (forall rs :: p.parseEvents(p.stringifyEvents(rs)) == Some(rs))
    && (forall t :: p.fromIso(p.toIso(t)) == t)
    && (forall b :: p.decode64(p.encode64(b)) == Some(b))
  }

  /** A string of char codes 0..255, one per byte, as the base64 helpers build it. */
  function BinaryString(b: Bytes): (s: string)
    ensures |s| == |b|
    ensures forall i :: 0 <= i < |b| ==> s[i] as int == b[i] as int
  {
    seq(|b|, i requires 0 <= i < |b| => b[i] as char)
  }

  /** Whether every char code is below 256, the only strings `btoa` accepts. */
  predicate IsBinary(s: string) {
    forall i :: 0 <= i < |s| ==> s[i] as int < 256
  }

  /** The bytes of a binary string, as `charCodeAt` stored into a `Uint8Array` (mod 256). */
  function CharCodes(s: string): (b: Bytes)
    ensures |b| == |s|
  {
    seq(|s|, i requires 0 <= i < |s| => (s[i] as int % 256) as byte)
  }

  lemma CharCodesOfBinaryString(b: Bytes)
    ensures CharCodes(BinaryString(b)) == b
    ensures IsBinary(BinaryString(b))
  {
    var s := BinaryString(b);
    forall i | 0 <= i < |b|
      ensures CharCodes(s)[i] == b[i]
    {
      var n := b[i] as int;
      assert s[i] as int == n && 0 <= n < 256;
      assert n % 256 == n;
      assert (n as byte) == b[i];
    }
  }

  /** `btoa`: `None` is the exception a char code of 256 or more raises. */
  function Btoa(p: Prims, s: string): (r: Option<string>)
    ensures r.Some? <==> IsBinary(s)
  {
    if IsBinary(s) then Some(p.encode64(CharCodes(s))) else None
  }

  /** `atob`: `None` is the exception for malformed input. */
  function Atob(p: Prims, s: string): (r: Option<string>)
    ensures r.Some? <==> p.decode64(s).Some?
    ensures r.Some? ==> IsBinary(r.value)
  {
    match p.decode64(s)
    case Some(b) => Some(BinaryString(b))
    case None => None
  }

  /** `Uint8Array.from(atob(s), c => c.charCodeAt(0))`; `None` is the exception `atob` throws. */
  function AtobBytes(p: Prims, s: string): (r: Option<Bytes>)
    ensures r.Some? <==> p.decode64(s).Some?
    ensures r.Some? ==> r.value == p.decode64(s).value
  {
    match Atob(p, s)
    case Some(bin) =>
      CharCodesOfBinaryString(p.decode64(s).value);
      Some(CharCodes(bin))
    case None => None
  }
}
