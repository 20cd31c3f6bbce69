/**
 * The event codecs: each event encrypted on its own for the server, and
 * the whole collection compressed and encrypted for local storage.
 */
module EventCodec {
  import opened Wrappers
  import opened Types
  import opened Platform
  import Crypt

  /** The JSON shape of an event: `start` and `end` become ISO strings. */
  function ToRaw(p: Prims, ev: CalendarEvent): RawCalendarEvent {
    RawCalendarEvent(ev.id, p.toIso(ev.start), p.toIso(ev.end), ev.title, ev.description, ev.color, ev.timestamp)
  }

  function ToRawAll(p: Prims, events: seq<CalendarEvent>): (rs: seq<RawCalendarEvent>)
    ensures |rs| == |events|
    ensures forall i :: 0 <= i < |events| ==> rs[i] == ToRaw(p, events[i])
  {
    seq(|events|, i requires 0 <= i < |events| => ToRaw(p, events[i]))
  }

  /** `cookEvent`: parses `start` and `end` and keeps every other field. */
  function CookEvent(p: Prims, raw: RawCalendarEvent): (ev: CalendarEvent)
    ensures ToRaw(p, ev).(start := raw.start, end := raw.end) == raw
    ensures ev.start == p.fromIso(raw.start) && ev.end == p.fromIso(raw.end)
  {
    CalendarEvent(raw.id, p.fromIso(raw.start), p.fromIso(raw.end), raw.title, raw.description, raw.color, raw.timestamp)
  }

  function CookAll(p: Prims, raws: seq<RawCalendarEvent>): (evs: seq<CalendarEvent>)
    ensures |evs| == |raws|
    ensures forall i :: 0 <= i < |raws| ==> evs[i] == CookEvent(p, raws[i])
  {
    seq(|raws|, i requires 0 <= i < |raws| => CookEvent(p, raws[i]))
  }

  lemma CookInvertsToRaw(p: Prims, events: seq<CalendarEvent>)
    requires Lawful(p)
    ensures CookAll(p, ToRawAll(p, events)) == events
  {
  }

  /* ------------------------------ per event ------------------------------ */

  /** One record of `encryptEvents`: the event's JSON, encrypted, then base64-encoded. */
  function EncryptEvent(p: Prims, ev: CalendarEvent, key: Key, iv: Nonce): (r: EncryptedEvent)
    ensures r.id == ev.id && r.updatedAt == ev.timestamp
  {
    EncryptedEvent(
      ev.id,
      p.encode64(Crypt.Sealed(p, key, iv, p.utf8Encode(p.stringifyEvent(ToRaw(p, ev))))),
      ev.timestamp)
  }

  /** `encryptEvents`: each event is sealed under its own nonce. */
  function EncryptEvents(p: Prims, events: seq<CalendarEvent>, key: Key, nonces: nat -> Nonce): (r: seq<EncryptedEvent>)
    ensures |r| == |events|
    ensures forall i :: 0 <= i < |events| ==> r[i] == EncryptEvent(p, events[i], key, nonces(i))
    ensures forall i :: 0 <= i < |events| ==> r[i].id == events[i].id && r[i].updatedAt == events[i].timestamp
  {
    seq(|events|, i requires 0 <= i < |events| => EncryptEvent(p, events[i], key, nonces(i)))
  }

  /** One record of `decryptEvents`; `None` is a rejection (bad base64, failed decryption, bad JSON). */
  function DecryptEvent(p: Prims, e: EncryptedEvent, key: Key): (r: Option<DecryptedEvent>)
    ensures r.Some? ==> r.value.id == e.id && r.value.updatedAt == e.updatedAt
  {
    match p.decode64(e.data)
    case None => None
    case Some(bytes) =>
      match Crypt.Decrypt(p, bytes, key)
      case None => None
      case Some(plain) =>
        match p.parseEvent(p.utf8Decode(plain))
        case None => None
        case Some(raw) => Some(DecryptedEvent(e.id, CookEvent(p, raw), e.updatedAt))
  }

  /** `decryptEvents`: `Promise.all` rejects as soon as one record fails. */
  function DecryptEvents(p: Prims, es: seq<EncryptedEvent>, key: Key): (r: Option<seq<DecryptedEvent>>)
    ensures r.Some? <==> forall i :: 0 <= i < |es| ==> DecryptEvent(p, es[i], key).Some?
    ensures r.Some? ==> |r.value| == |es|
    ensures r.Some? ==> forall i :: 0 <= i < |es| ==> r.value[i] == DecryptEvent(p, es[i], key).value
    decreases |es|
  {
    if es == [] then Some([])
    else
      match DecryptEvent(p, es[0], key)
      case None => None
      case Some(d) =>
        match DecryptEvents(p, es[1..], key)
        case None =>
          assert !DecryptEvent(p, es[1..][0], key).Some? || exists i :: 0 <= i < |es| - 1 && !DecryptEvent(p, es[1..][i], key).Some?;
          None
        case Some(rest) =>
          assert forall i :: 1 <= i < |es| ==> es[i] == es[1..][i - 1];
          Some([d] + rest)
  }

  /** A record `encryptEvents` produced decrypts to its own event. */
  lemma DecryptInvertsEncryptEvent(p: Prims, ev: CalendarEvent, key: Key, iv: Nonce)
    requires Lawful(p)
    ensures DecryptEvent(p, EncryptEvent(p, ev, key, iv), key) == Some(DecryptedEvent(ev.id, ev, ev.timestamp))
  {
    var plain := p.utf8Encode(p.stringifyEvent(ToRaw(p, ev)));
    Crypt.DecryptInvertsEncrypt(p, key, iv, plain);
  }

  /** `decryptEvents` inverts `encryptEvents`: every record comes back with its id, event and stamp. */
  lemma DecryptEventsInvertsEncryptEvents(p: Prims, events: seq<CalendarEvent>, key: Key, nonces: nat -> Nonce)
    requires Lawful(p)
    ensures DecryptEvents(p, EncryptEvents(p, events, key, nonces), key)
            == Some(seq(|events|, i requires 0 <= i < |events| => DecryptedEvent(events[i].id, events[i], events[i].timestamp)))
  {
    var es := EncryptEvents(p, events, key, nonces);
    var want := seq(|events|, i requires 0 <= i < |events| => DecryptedEvent(events[i].id, events[i], events[i].timestamp));
    forall i | 0 <= i < |events|
      ensures DecryptEvent(p, es[i], key) == Some(want[i])
    {
      DecryptInvertsEncryptEvent(p, events[i], key, nonces(i));
    }
    var d := DecryptEvents(p, es, key);
    assert d.Some?;
    assert d.value == want;
  }

  /* ---------------------------- whole collection ---------------------------- */

  /** `encryptOfflineEvents`: the list's JSON, gzip-compressed, then encrypted. */
  function EncryptOfflineEvents(p: Prims, events: seq<CalendarEvent>, key: Key, iv: Nonce): Bytes {
    Crypt.Sealed(p, key, iv, p.compress(p.utf8Encode(p.stringifyEvents(ToRawAll(p, events)))))
  }

  /** `decryptOfflineEvents`; `None` is a rejection at any stage. */
  function DecryptOfflineEvents(p: Prims, data: Bytes, key: Key): Option<seq<CalendarEvent>> {
    match Crypt.Decrypt(p, data, key)
    case None => None
    case Some(payload) =>
      match p.decompress(payload)
      case None => None
      case Some(json) =>
        match p.parseEvents(p.utf8Decode(json))
        case None => None
        case Some(raws) => Some(CookAll(p, raws))
  }

  lemma DecryptOfflineInvertsEncrypt(p: Prims, events: seq<CalendarEvent>, key: Key, iv: Nonce)
    requires Lawful(p)
    ensures DecryptOfflineEvents(p, EncryptOfflineEvents(p, events, key, iv), key) == Some(events)
  {
    var json := p.utf8Encode(p.stringifyEvents(ToRawAll(p, events)));
    Crypt.DecryptInvertsEncrypt(p, key, iv, p.compress(json));
    CookInvertsToRaw(p, events);
  }
}
