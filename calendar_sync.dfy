/**
 * The client's events hook: `syncEvents` sends a checkpoint of the
 * decrypted cache, applies the server's diff to a map of the cache and
 * re-stores it; `saveEvents` flushes pending changes and re-applies them
 * to the cache; `loadEvents` picks sync or the local collection.
 */
module EventsHook {
  import opened Wrappers
  import opened Types
  import opened Platform
  import opened OrderedMap
  import opened EventCodec

  const CACHED_EVENTS := "cachedEvents"
  const OFFLINE_EVENTS := "offlineEvents"

  /** What `saveEvents` is handed: pending changes, or (offline) every event. */
  datatype SaveBatch = ChangeList(changes: seq<EventChange>) | EventList(events: seq<CalendarEvent>)

  function BatchSize(b: SaveBatch): nat {
    match b
    case ChangeList(cs) => |cs|
    case EventList(es) => |es|
  }

  /** One element of the save request: `{type: "deleted", id}` or `{type, event}`. */
  datatype PayloadEntry =
    | DeleteEntry(id: Option<string>)
    | UpsertEntry(kind: ChangeType, event: Option<EncryptedEvent>)

  /* ------------------------------ sync: spec ------------------------------ */

  /** The decrypted cache, or empty when it is absent or does not decrypt. */
  function CachedContents(p: Prims, store: map<string, Bytes>, key: Key): seq<CalendarEvent> {
    if CACHED_EVENTS !in store then []
    else DecryptOfflineEvents(p, store[CACHED_EVENTS], key).GetOr([])
  }

  /** The checkpoint: one `{id, ts}` per cached event, in order, nothing else. */
  function Checkpoint(p: Prims, cache: seq<CalendarEvent>): (c: seq<CachedEvent>)
    ensures |c| == |cache|
    ensures forall i :: 0 <= i < |cache| ==> c[i] == CachedEvent(p.uuidToBase64(cache[i].id), cache[i].timestamp)
  {
    seq(|cache|, i requires 0 <= i < |cache| => CachedEvent(p.uuidToBase64(cache[i].id), cache[i].timestamp))
  }

  function EventId(e: CalendarEvent): string { e.id }

  function RecordId(e: EncryptedEvent): string { e.id }

  /** `xs.map(x => [x.id, x])`, for the cached events and for the encrypted ones. */
  function ById<T>(xs: seq<T>, id: T -> string): (es: seq<(string, T)>)
    ensures |es| == |xs|
    ensures forall i :: 0 <= i < |xs| ==> es[i] == (id(xs[i]), xs[i])
  {
    seq(|xs|, i requires 0 <= i < |xs| => (id(xs[i]), xs[i]))
  }

  /** A decrypted diff list as `cachedMap.set(ev.id, ev.data)` entries. */
  function DataById(ds: seq<DecryptedEvent>): (es: seq<(string, CalendarEvent)>)
    ensures |es| == |ds|
    ensures forall i :: 0 <= i < |ds| ==> es[i] == (ds[i].id, ds[i].data)
  {
    seq(|ds|, i requires 0 <= i < |ds| => (ds[i].id, ds[i].data))
  }

  /** The cache map after the diff: deletions, then updated, then added. */
  function MergedMap(cache: seq<CalendarEvent>, deleted: seq<string>, upd: seq<DecryptedEvent>, add: seq<DecryptedEvent>)
    : (r: OMap<string, CalendarEvent>)
    ensures r.Valid()
  {
    SetAll(SetAll(DeleteAll(FromEntries(ById(cache, EventId)), deleted), DataById(upd)), DataById(add))
  }

  /** The merged cache map, or `None` when a diff record fails to decrypt. */
  function MergeDiffMap(p: Prims, cache: seq<CalendarEvent>, resp: EventSyncResponse, key: Key): Option<OMap<string, CalendarEvent>> {
    match DecryptEvents(p, resp.updated, key)
    case None => None
    case Some(upd) =>
      match DecryptEvents(p, resp.added, key)
      case None => None
      case Some(add) => Some(MergedMap(cache, resp.deleted, upd, add))
  }

  /** The merged event list: the merged map's values in insertion order. */
  function MergeDiff(p: Prims, cache: seq<CalendarEvent>, resp: EventSyncResponse, key: Key): (r: Option<seq<CalendarEvent>>)
    ensures r.Some? <==> MergeDiffMap(p, cache, resp, key).Some?
    ensures r.Some? ==> r.value == MergeDiffMap(p, cache, resp, key).value.Values()
  {
    match MergeDiffMap(p, cache, resp, key)
    case None => None
    case Some(m) => Some(m.Values())
  }

  /**
   * The merged map per key: an `added` record wins over an `updated` one,
   * either over a deletion, and a cached event the diff does not name is
   * kept as it was.
   */
  lemma MergedMapGet(cache: seq<CalendarEvent>, deleted: seq<string>, upd: seq<DecryptedEvent>, add: seq<DecryptedEvent>, k: string)
    ensures MergedMap(cache, deleted, upd, add).Get(k) ==
      if Lookup(DataById(add), k).Some? then Lookup(DataById(add), k)
      else if Lookup(DataById(upd), k).Some? then Lookup(DataById(upd), k)
      else if k in deleted then None
      else Lookup(ById(cache, EventId), k)
  {
    var base := FromEntries(ById(cache, EventId));
    var afterDelete := DeleteAll(base, deleted);
    var afterUpdate := SetAll(afterDelete, DataById(upd));
    SetAllGet(afterUpdate, DataById(add), k);
    SetAllGet(afterDelete, DataById(upd), k);
    FromEntriesLookup(ById(cache, EventId), k);
  }

  /* ------------------------------ save: spec ------------------------------ */

  /** Every added/updated change carries its event (else `c.event!` throws). */
  predicate WellFormed(changes: seq<EventChange>) {
    forall i :: 0 <= i < |changes| && changes[i].kind != Deleted ==> changes[i].event.Some?
  }

  /** `changes.filter(c => c.type !== "deleted").map(c => c.event!)`. */
  function ToEncrypt(changes: seq<EventChange>): (evs: seq<CalendarEvent>)
    requires WellFormed(changes)
  {
    if changes == [] then []
    else
      var c := changes[|changes| - 1];
      ToEncrypt(changes[..|changes| - 1]) + (if c.kind == Deleted then [] else [c.event.value])
  }

  /** The events of the non-deleted changes are exactly what gets encrypted. */
  lemma {:induction false} ToEncryptMembers(changes: seq<EventChange>)
    requires WellFormed(changes)
    ensures forall i :: 0 <= i < |changes| && changes[i].kind != Deleted ==> changes[i].event.value in ToEncrypt(changes)
    ensures forall ev :: ev in ToEncrypt(changes) ==>
      exists i :: 0 <= i < |changes| && changes[i].kind != Deleted && changes[i].event == Some(ev)
  {
    if changes != [] {
      var init := changes[..|changes| - 1];
      assert forall i :: 0 <= i < |init| ==> init[i] == changes[i];
      ToEncryptMembers(init);
    }
  }

  /** `payload`: one entry per change, in order; deletions carry only the id. */
  function Payload(p: Prims, changes: seq<EventChange>, key: Key, nonces: nat -> Nonce): (r: seq<PayloadEntry>)
    requires WellFormed(changes)
    ensures |r| == |changes|
  {
    var encrypted := ById(EncryptEvents(p, ToEncrypt(changes), key, nonces), RecordId);
    seq(|changes|, i requires 0 <= i < |changes| =>
      if changes[i].kind == Deleted then DeleteEntry(changes[i].id)
      else UpsertEntry(changes[i].kind, Lookup(encrypted, changes[i].event.value.id)))
  }

  /** Re-applying the saved changes to the cache map, in order. */
  function ApplyChanges(om: OMap<string, CalendarEvent>, changes: seq<EventChange>): (r: OMap<string, CalendarEvent>)
    requires om.Valid()
    requires WellFormed(changes)
    ensures r.Valid()
  {
    if changes == [] then om
    else
      var init := changes[..|changes| - 1];
      assert WellFormed(init) by {
        assert forall i :: 0 <= i < |init| ==> init[i] == changes[i];
      }
      var prev := ApplyChanges(om, init);
      var c := changes[|changes| - 1];
      if c.kind == Deleted then
        if c.id.Some? then prev.Delete(c.id.value) else prev
      else prev.Set(c.event.value.id, c.event.value)
  }

  /** The offline blob: the batch's JSON, compressed and encrypted as the collection codec does. */
  function OfflineBlob(p: Prims, batch: SaveBatch, key: Key, iv: Nonce): Bytes {
    match batch
    case EventList(evs) => EncryptOfflineEvents(p, evs, key, iv)
    case ChangeList(cs) => Crypt.Sealed(p, key, iv, p.compress(p.utf8Encode(p.stringifyChanges(cs))))
  }

  /* ------------------------------ save: lemmas ------------------------------ */

  /** Each deletion entry is `{type, id}`; every other entry carries the encrypted form of its own event. */
  lemma PayloadEntries(p: Prims, changes: seq<EventChange>, key: Key, nonces: nat -> Nonce, i: nat, entry: PayloadEntry)
    requires Lawful(p)
    requires WellFormed(changes)
    requires i < |changes|
    requires forall a, b :: 0 <= a < b < |ToEncrypt(changes)| ==> ToEncrypt(changes)[a].id != ToEncrypt(changes)[b].id
    requires entry == Payload(p, changes, key, nonces)[i]
    ensures changes[i].kind == Deleted ==> entry == DeleteEntry(changes[i].id)
    ensures changes[i].kind != Deleted ==>
      var ev := changes[i].event.value;
      && entry.UpsertEntry? && entry.kind == changes[i].kind
      && entry.event.Some? && entry.event.value.id == ev.id && entry.event.value.updatedAt == ev.timestamp
      && DecryptEvent(p, entry.event.value, key) == Some(DecryptedEvent(ev.id, ev, ev.timestamp))
  {
    if changes[i].kind != Deleted {
      var ev := changes[i].event.value;
      var evs := ToEncrypt(changes);
      ToEncryptMembers(changes);
      var j :| 0 <= j < |evs| && evs[j] == ev;
      EncryptedLookup(p, evs, key, nonces, j, ById(EncryptEvents(p, evs, key, nonces), RecordId));
      DecryptInvertsEncryptEvent(p, ev, key, nonces(j));
      assert entry == UpsertEntry(changes[i].kind, Some(EncryptEvent(p, ev, key, nonces(j))));
    }
  }

  /** With distinct ids, the encrypted entries map each event's id to its own record. */
  lemma EncryptedLookup(p: Prims, evs: seq<CalendarEvent>, key: Key, nonces: nat -> Nonce, j: nat,
                        entries: seq<(string, EncryptedEvent)>)
    requires forall a, b :: 0 <= a < b < |evs| ==> evs[a].id != evs[b].id
    requires j < |evs| && entries == ById(EncryptEvents(p, evs, key, nonces), RecordId)
    ensures Lookup(entries, evs[j].id) == Some(EncryptEvent(p, evs[j], key, nonces(j)))
  {
    assert entries[j] == (evs[j].id, EncryptEvent(p, evs[j], key, nonces(j)));
    assert forall b :: j < b < |entries| ==> entries[b].0 != evs[j].id;
    LookupMembers(entries, evs[j].id);
  }

  /**
   * What the last change naming `k` does to it: `Some(None)` deletes it,
   * `Some(Some(ev))` sets it to `ev`, `None` leaves it alone.
   */
  function LastChange(changes: seq<EventChange>, k: string): Option<Option<CalendarEvent>> {
    if changes == [] then None
    else
      var c := changes[|changes| - 1];
      if ChangeNames(c, k) then Some(if c.kind == Deleted then None else c.event)
      else LastChange(changes[..|changes| - 1], k)
  }

  /** A key no change names is left alone. */
  lemma {:induction false} LastChangeNone(changes: seq<EventChange>, k: string)
    ensures LastChange(changes, k).None? <==> forall i :: 0 <= i < |changes| ==> !ChangeNames(changes[i], k)
  {
    if changes != [] {
      var init := changes[..|changes| - 1];
      assert forall i :: 0 <= i < |init| ==> init[i] == changes[i];
      LastChangeNone(init, k);
    }
  }

  /** A re-applied change list: the last change naming a key decides it, other keys keep their values. */
  lemma {:induction false} ApplyChangesGet(om: OMap<string, CalendarEvent>, changes: seq<EventChange>, k: string)
    requires om.Valid()
    requires WellFormed(changes)
    ensures ApplyChanges(om, changes).Get(k) == match LastChange(changes, k) case None => om.Get(k) case Some(v) => v
  {
    if changes != [] {
      var init := changes[..|changes| - 1];
      assert forall i :: 0 <= i < |init| ==> init[i] == changes[i];
      ApplyChangesGet(om, init, k);
    }
  }

  /** Whether a change addresses key `k` of the cache map. */
  predicate ChangeNames(c: EventChange, k: string) {
    if c.kind == Deleted then c.id == Some(k) else c.event.Some? && c.event.value.id == k
  }

  /* ------------------------------ the hook ------------------------------ */

  class CalendarEventsHook {
    /** The storage context is present. */
    const hasStorage: bool
    /** The hook's `user` and `masterKey` arguments, which `saveEvents` closes over. */
    const user: Option<User>
    const masterKey: Option<Key>
    /** The persisted storage record: key to encrypted blob. */
    var store: map<string, Bytes>
    var saving: bool
    /** How often the save callback has run. */
    var callbacks: nat

    constructor (hasStorage: bool, user: Option<User>, masterKey: Option<Key>, store: map<string, Bytes>)
      ensures this.hasStorage == hasStorage && this.user == user && this.masterKey == masterKey
      ensures this.store == store && !saving && callbacks == 0
    {
      this.hasStorage := hasStorage;
      this.user := user;
      this.masterKey := masterKey;
      this.store := store;
      saving := false;
      callbacks := 0;
    }

    /** The delete loop over the server's `deleted` ids. */
    static method DeleteIds(cachedMap0: OMap<string, CalendarEvent>, deleted: seq<string>) returns (cachedMap: OMap<string, CalendarEvent>)
      requires cachedMap0.Valid()
      ensures cachedMap == DeleteAll(cachedMap0, deleted)
    {
      cachedMap := cachedMap0;
      var i := 0;
      while i < |deleted|
        invariant 0 <= i <= |deleted|
        invariant cachedMap == DeleteAll(cachedMap0, deleted[..i])
      {
        assert deleted[..i + 1][..i] == deleted[..i];
        cachedMap := cachedMap.Delete(deleted[i]);
        i := i + 1;
      }
      assert deleted[..i] == deleted;
    }

    /** A set loop over decrypted records: `cachedMap.set(ev.id, ev.data)`. */
    static method SetDecrypted(cachedMap0: OMap<string, CalendarEvent>, ds: seq<DecryptedEvent>) returns (cachedMap: OMap<string, CalendarEvent>)
      requires cachedMap0.Valid()
      ensures cachedMap == SetAll(cachedMap0, DataById(ds))
    {
      cachedMap := cachedMap0;
      var i := 0;
      while i < |ds|
        invariant 0 <= i <= |ds|
        invariant cachedMap == SetAll(cachedMap0, DataById(ds[..i]))
      {
        assert DataById(ds[..i + 1])[..i] == DataById(ds[..i]);
        cachedMap := cachedMap.Set(ds[i].id, ds[i].data);
        i := i + 1;
      }
      assert ds[..i] == ds;
    }

    /**
     * `syncEvents`. `server` is the `calendar/events/sync` call (`None` an
     * unsuccessful response) and `iv` the nonce of the re-stored cache.
     */
    method SyncEvents(p: Prims, u: User, key: Key, server: seq<CachedEvent> -> Option<EventSyncResponse>, iv: Nonce)
      returns (r: Result<seq<CalendarEvent>, string>)
      modifies this
      ensures saving == old(saving) && callbacks == old(callbacks)
      ensures !hasStorage ==> r == Success([]) && store == old(store)
      ensures hasStorage && !u.OnlineUser? ==> r == Failure("Cannot syncEvents for offline user.") && store == old(store)
      ensures hasStorage && u.OnlineUser? ==>
        var cache := CachedContents(p, old(store), key);
        match server(Checkpoint(p, cache))
        case None => r == Failure("Failed to sync calendar events.") && store == old(store)
        case Some(resp) =>
          match MergeDiff(p, cache, resp, key)
          case None => r == Success([]) && store == old(store)
          case Some(finalEvents) =>
            r == Success(finalEvents) && store == old(store)[CACHED_EVENTS := EncryptOfflineEvents(p, finalEvents, key, iv)]
    {
      if !hasStorage {
        return Success([]);
      }
      if !u.OnlineUser? {
        return Failure("Cannot syncEvents for offline user.");
      }
      var cachedEvents: seq<CalendarEvent> := [];
      if CACHED_EVENTS in store {
        var decrypted := DecryptOfflineEvents(p, store[CACHED_EVENTS], key);
        if decrypted.Some? {
          cachedEvents := cachedEvents + decrypted.value;
        }
      }
      assert cachedEvents == CachedContents(p, store, key);
      var res := server(Checkpoint(p, cachedEvents));
      if res.None? {
        return Failure("Failed to sync calendar events.");
      }
      var resp := res.value;
      var cachedMap := FromEntries(ById(cachedEvents, EventId));
      cachedMap := DeleteIds(cachedMap, resp.deleted);
      var decryptedUpdated := DecryptEvents(p, resp.updated, key);
      if decryptedUpdated.None? {
        return Success([]);
      }
      var decryptedAdded := DecryptEvents(p, resp.added, key);
      if decryptedAdded.None? {
        return Success([]);
      }
      cachedMap := SetDecrypted(cachedMap, decryptedUpdated.value);
      cachedMap := SetDecrypted(cachedMap, decryptedAdded.value);
      var finalEvents := cachedMap.Values();
      store := store[CACHED_EVENTS := EncryptOfflineEvents(p, finalEvents, key, iv)];
      return Success(finalEvents);
    }

    /** `loadEvents`: sync for an online user, the decrypted local collection otherwise. */
    method LoadEvents(p: Prims, u: User, key: Key, server: seq<CachedEvent> -> Option<EventSyncResponse>, iv: Nonce)
      returns (r: Result<seq<CalendarEvent>, string>)
      modifies this
      ensures saving == old(saving) && callbacks == old(callbacks)
      ensures !hasStorage ==> r == Success([]) && store == old(store)
      ensures hasStorage && u.OfflineUser? ==>
        store == old(store) && r == Success(if OFFLINE_EVENTS in store then DecryptOfflineEvents(p, store[OFFLINE_EVENTS], key).GetOr([]) else [])
      ensures hasStorage && u.OnlineUser? ==>
        var cache := CachedContents(p, old(store), key);
        match server(Checkpoint(p, cache))
        case None => r.Failure? && store == old(store)
        case Some(resp) =>
          match MergeDiff(p, cache, resp, key)
          case None => r == Success([]) && store == old(store)
          case Some(finalEvents) =>
            r == Success(finalEvents) && store == old(store)[CACHED_EVENTS := EncryptOfflineEvents(p, finalEvents, key, iv)]
    {
      if !hasStorage {
        return Success([]);
      }
      if u.OnlineUser? {
        r := SyncEvents(p, u, key, server, iv);
        return;
      }
      if OFFLINE_EVENTS in store {
        var events := DecryptOfflineEvents(p, store[OFFLINE_EVENTS], key);
        return Success(events.GetOr([]));
      }
      return Success([]);
    }

    /**
     * `saveEvents`. `post` is the `calendar/events/save` call (true on
     * success), `nonces` the per-event nonces, `iv` the nonce of the stored
     * blob. `sent` is the payload posted, if any. An exception caught by
     * the handler shows as `saving` reset with no callback.
     */
    method SaveEvents(p: Prims, batch: SaveBatch, post: seq<PayloadEntry> -> bool, nonces: nat -> Nonce, iv: Nonce)
      returns (sent: Option<seq<PayloadEntry>>)
      modifies this
      ensures BatchSize(batch) == 0 ==>
        sent == None && store == old(store) && saving == old(saving) && callbacks == old(callbacks)
      ensures BatchSize(batch) > 0 && (!hasStorage || masterKey.None?) ==>
        sent == None && store == old(store) && saving && callbacks == old(callbacks)
      ensures BatchSize(batch) > 0 && hasStorage && masterKey.Some? && !(user.Some? && user.value.OnlineUser?) ==>
        sent == None && !saving && callbacks == old(callbacks) + 1 &&
        store == old(store)[OFFLINE_EVENTS := OfflineBlob(p, batch, masterKey.value, iv)]
      ensures BatchSize(batch) > 0 && hasStorage && masterKey.Some? && user.Some? && user.value.OnlineUser? ==>
        !saving &&
        if !batch.ChangeList? || !WellFormed(batch.changes) then
          sent == None && store == old(store) && callbacks == old(callbacks)
        else
          var key := masterKey.value;
          var payload := Payload(p, batch.changes, key, nonces);
          sent == Some(payload) &&
          if !post(payload) || SavedCache(p, old(store), key, batch.changes).None? then
            store == old(store) && callbacks == old(callbacks)
          else
            callbacks == old(callbacks) + 1 &&
            store == old(store)[CACHED_EVENTS := EncryptOfflineEvents(p, SavedCache(p, old(store), key, batch.changes).value, key, iv)]
    {
      if BatchSize(batch) == 0 {
        return None;
      }
      saving := true;
      if !hasStorage || masterKey.None? {
        return None;
      }
      var key := masterKey.value;
      if user.Some? && user.value.OnlineUser? {
        if !batch.ChangeList? || !WellFormed(batch.changes) {
          saving := false;
          return None;
        }
        var changes := batch.changes;
        var payload := Payload(p, changes, key, nonces);
        sent := Some(payload);
        if !post(payload) {
          saving := false;
          return;
        }
        var cached: seq<CalendarEvent> := [];
        if CACHED_EVENTS in store {
          var stored := DecryptOfflineEvents(p, store[CACHED_EVENTS], key);
          if stored.None? {
            saving := false;
            return;
          }
          cached := stored.value;
        }
        var cachedMap := FromEntries(ById(cached, EventId));
        cachedMap := MergeChanges(cachedMap, changes);
        store := store[CACHED_EVENTS := EncryptOfflineEvents(p, cachedMap.Values(), key, iv)];
        saving := false;
        callbacks := callbacks + 1;
      } else {
        store := store[OFFLINE_EVENTS := OfflineBlob(p, batch, key, iv)];
        saving := false;
        callbacks := callbacks + 1;
        return None;
      }
    }

    /** The merge loop of a successful save. */
    static method MergeChanges(cachedMap0: OMap<string, CalendarEvent>, changes: seq<EventChange>) returns (cachedMap: OMap<string, CalendarEvent>)
      requires cachedMap0.Valid()
      requires WellFormed(changes)
      ensures cachedMap == ApplyChanges(cachedMap0, changes)
    {
      cachedMap := cachedMap0;
      var i := 0;
      while i < |changes|
        invariant 0 <= i <= |changes|
        invariant WellFormed(changes[..i])
        invariant cachedMap == ApplyChanges(cachedMap0, changes[..i])
      {
        assert changes[..i + 1][..i] == changes[..i];
        var c := changes[i];
        if c.kind == Deleted {
          if c.id.Some? {
            cachedMap := cachedMap.Delete(c.id.value);
          }
        } else {
          cachedMap := cachedMap.Set(c.event.value.id, c.event.value);
        }
        i := i + 1;
      }
      assert changes[..i] == changes;
    }
  }

  /** The cache after a successful save is re-merged: `None` when the stored cache fails to decrypt. */
  function SavedCache(p: Prims, store: map<string, Bytes>, key: Key, changes: seq<EventChange>): Option<seq<CalendarEvent>>
    requires WellFormed(changes)
  {
    var stored := if CACHED_EVENTS in store then DecryptOfflineEvents(p, store[CACHED_EVENTS], key) else Some([]);
    match stored
    case None => None
    case Some(cached) => Some(ApplyChanges(FromEntries(ById(cached, EventId)), changes).Values())
  }
}
