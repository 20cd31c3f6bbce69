/**
 * The round trip of one sync, across client and server: the client's
 * checkpoint, the server's diff against the owner's rows and the client's
 * merge. Under the hypotheses below the merged cache holds exactly the
 * server's events, each as the newer of the cached and the stored copy.
 */
module SyncConvergence {
  import opened Wrappers
  import opened Types
  import opened Platform
  import opened OrderedMap
  import opened EventCodec
  import ServerUtils
  import opened CalendarHandlers
  import opened EventsHook

  /** The cache never holds two events with one id (it is built from a map). */
  predicate DistinctIds(cache: seq<CalendarEvent>) {
    forall i, j :: 0 <= i < j < |cache| ==> cache[i].id != cache[j].id
  }

  /** `id` is the table's primary key. */
  predicate DistinctRows(rows: seq<StoredEvent>) {
    forall r1, r2 :: r1 in rows && r2 in rows && r1.id == r2.id ==> r1 == r2
  }

  /** The server's `Base64ToUUID` undoes the client's `uuidToBase64` on every cached id. */
  predicate UuidsRoundTrip(p: Prims, cache: seq<CalendarEvent>) {
    forall i :: 0 <= i < |cache| ==> ServerUtils.Base64ToUUID(p, p.uuidToBase64(cache[i].id)) == Success(cache[i].id)
  }

  predicate IsCachedId(cache: seq<CalendarEvent>, id: string) {
    exists i :: 0 <= i < |cache| && cache[i].id == id
  }

  /** The event a server row decrypts to. */
  function Fetched(p: Prims, r: StoredEvent, key: Key): Option<CalendarEvent> {
    match DecryptEvent(p, Wire(p, r), key)
    case None => None
    case Some(d) => Some(d.data)
  }

  /** On the server, the checkpoint converts back to the cache's ids and stamps. */
  lemma CheckpointOnServer(p: Prims, cache: seq<CalendarEvent>, m: map<string, int>)
    requires DistinctIds(cache)
    requires UuidsRoundTrip(p, cache)
    requires m == IdToMillis(p, Checkpoint(p, cache))
    ensures forall id :: id in m <==> IsCachedId(cache, id)
    ensures forall i :: 0 <= i < |cache| ==> cache[i].id in m && m[cache[i].id] == cache[i].timestamp
  {
    var ck := Checkpoint(p, cache);
    IdToMillisKeys(p, ck);
    forall i | 0 <= i < |cache| ensures cache[i].id in m && m[cache[i].id] == cache[i].timestamp {
      CachedInCheckpoint(p, cache, i);
    }
    forall id | id in m ensures IsCachedId(cache, id) {
      var i :| 0 <= i < |ck| && ServerUtils.Base64ToUUID(p, ck[i].id) == Success(id);
      assert cache[i].id == id;
    }
  }

  /** The checkpoint carries each cached id with its cached stamp. */
  lemma CachedInCheckpoint(p: Prims, cache: seq<CalendarEvent>, i: nat)
    requires DistinctIds(cache)
    requires UuidsRoundTrip(p, cache)
    requires i < |cache|
    ensures var m := IdToMillis(p, Checkpoint(p, cache));
      cache[i].id in m && m[cache[i].id] == cache[i].timestamp
  {
    var ck := Checkpoint(p, cache);
    assert ServerUtils.Base64ToUUID(p, ck[i].id) == Success(cache[i].id);
    forall j | i < j < |ck| ensures ServerUtils.Base64ToUUID(p, ck[j].id) != ServerUtils.Base64ToUUID(p, ck[i].id) {
      assert ServerUtils.Base64ToUUID(p, ck[j].id) == Success(cache[j].id);
    }
    IdToMillisLast(p, ck, i);
  }

  /** One selected row: the decrypted diff list maps its id to the row's event. */
  lemma DiffLookupRow(p: Prims, rows: seq<StoredEvent>, pick: StoredEvent -> bool, es: seq<EncryptedEvent>, key: Key,
                      ds: seq<DecryptedEvent>, r: StoredEvent)
    requires DistinctRows(rows)
    requires forall e :: e in es ==> exists r :: r in rows && e == Wire(p, r) && pick(r)
    requires Wire(p, r) in es && r in rows
    requires DecryptEvents(p, es, key) == Some(ds)
    ensures Fetched(p, r, key).Some? && Lookup(DataById(ds), r.id) == Fetched(p, r, key)
  {
    var entries := DataById(ds);
    var i :| 0 <= i < |es| && es[i] == Wire(p, r);
    assert ds[i] == DecryptEvent(p, es[i], key).value;
    assert entries[i].0 == r.id;
    LookupMembers(entries, r.id);
    LookupFound(entries, r.id);
    var i' :| 0 <= i' < |entries| && entries[i'] == (r.id, Lookup(entries, r.id).value);
    assert es[i'] in es;
    var r' :| r' in rows && es[i'] == Wire(p, r') && pick(r');
    assert ds[i'] == DecryptEvent(p, es[i'], key).value;
    assert r'.id == r.id;
  }

  /** Any id the decrypted diff list names is that of a selected row. */
  lemma DiffLookupKey(p: Prims, rows: seq<StoredEvent>, pick: StoredEvent -> bool, es: seq<EncryptedEvent>, key: Key,
                      ds: seq<DecryptedEvent>, k: string)
    requires forall e :: e in es ==> exists r :: r in rows && e == Wire(p, r) && pick(r)
    requires DecryptEvents(p, es, key) == Some(ds)
    requires Lookup(DataById(ds), k).Some?
    ensures exists r :: r in rows && r.id == k && pick(r)
  {
    var entries := DataById(ds);
    LookupFound(entries, k);
    var i :| 0 <= i < |entries| && entries[i] == (k, Lookup(entries, k).value);
    assert es[i] in es;
    var r :| r in rows && es[i] == Wire(p, r) && pick(r);
    assert ds[i] == DecryptEvent(p, es[i], key).value;
    assert r.id == k;
  }

  /** The diff the server sends back for the client's checkpoint. */
  function Diff(p: Prims, cache: seq<CalendarEvent>, rows: seq<StoredEvent>): EventSyncResponse {
    SyncResponse(p, Checkpoint(p, cache), rows)
  }

  /** `updated` is the wire form of exactly the rows newer than their checkpoint stamp. */
  lemma UpdatedFacts(p: Prims, cache: seq<CalendarEvent>, rows: seq<StoredEvent>)
    ensures var m := IdToMillis(p, Checkpoint(p, cache));
      && (forall e :: e in Diff(p, cache, rows).updated ==> exists r :: r in rows && e == Wire(p, r) && IsNewer(m, r))
      && (forall r :: r in rows && IsNewer(m, r) ==> Wire(p, r) in Diff(p, cache, rows).updated)
  {
    UpdatedRowsMembers(p, rows, IdToMillis(p, Checkpoint(p, cache)));
  }

  /** `added` is the wire form of exactly the rows the checkpoint lacks. */
  lemma AddedFacts(p: Prims, cache: seq<CalendarEvent>, rows: seq<StoredEvent>)
    ensures var m := IdToMillis(p, Checkpoint(p, cache));
      && (forall e :: e in Diff(p, cache, rows).added ==> exists r :: r in rows && e == Wire(p, r) && r.id !in m)
      && (forall r :: r in rows && r.id !in m ==> Wire(p, r) in Diff(p, cache, rows).added)
  {
    AddedRowsMembers(p, rows, IdToMillis(p, Checkpoint(p, cache)));
  }

  /** On the server, the checkpoint's ids convert back to the cache's ids, position by position. */
  lemma CheckpointIdsOf(p: Prims, cache: seq<CalendarEvent>, ids: seq<string>)
    requires UuidsRoundTrip(p, cache)
    requires ids == CheckpointIds(p, Checkpoint(p, cache))
    ensures |ids| == |cache|
    ensures forall i :: 0 <= i < |cache| ==> ids[i] == cache[i].id
  {
    var ck := Checkpoint(p, cache);
    forall i | 0 <= i < |cache| ensures ids[i] == cache[i].id {
      assert ck[i].id == p.uuidToBase64(cache[i].id);
      assert ids[i] == CheckpointId(p, ck[i]);
    }
  }

  /** `deleted` is exactly the cached ids no row has. */
  lemma DeletedFacts(p: Prims, cache: seq<CalendarEvent>, rows: seq<StoredEvent>, deleted: seq<string>)
    requires UuidsRoundTrip(p, cache)
    requires deleted == Diff(p, cache, rows).deleted
    ensures forall id :: id in deleted <==> IsCachedId(cache, id) && forall r :: r in rows ==> r.id != id
  {
    var ids := CheckpointIds(p, Checkpoint(p, cache));
    assert deleted == DeletedIds(ids, RowIds(rows));
    CheckpointIdsOf(p, cache, ids);
    RowIdsMembers(rows);
    DeletedIdsMembers(ids, RowIds(rows));
    forall id ensures id in deleted <==> IsCachedId(cache, id) && forall r :: r in rows ==> r.id != id {
      if IsCachedId(cache, id) {
        var i :| 0 <= i < |cache| && cache[i].id == id;
        assert ids[i] == id;
      }
      if id in ids {
        var i :| 0 <= i < |ids| && ids[i] == id;
        assert cache[i].id == id;
      }
    }
  }

  /** The merged cache names no id the server lacks. */
  lemma SyncKeysFromServer(p: Prims, cache: seq<CalendarEvent>, rows: seq<StoredEvent>, key: Key, id: string)
    requires DistinctIds(cache)
    requires UuidsRoundTrip(p, cache)
    requires MergeDiffMap(p, cache, Diff(p, cache, rows), key).Some?
    requires MergeDiffMap(p, cache, Diff(p, cache, rows), key).value.Get(id).Some?
    ensures exists r :: r in rows && r.id == id
  {
    var m := IdToMillis(p, Checkpoint(p, cache));
    var resp := Diff(p, cache, rows);
    var upd := DecryptEvents(p, resp.updated, key).value;
    var add := DecryptEvents(p, resp.added, key).value;
    assert MergeDiffMap(p, cache, resp, key).value == MergedMap(cache, resp.deleted, upd, add);
    MergedKeyCases(cache, resp.deleted, upd, add, id);
    if Lookup(DataById(add), id).Some? {
      AddedFacts(p, cache, rows);
      DiffLookupKey(p, rows, (r: StoredEvent) => r.id !in m, resp.added, key, add, id);
    } else if Lookup(DataById(upd), id).Some? {
      UpdatedFacts(p, cache, rows);
      DiffLookupKey(p, rows, (r: StoredEvent) => IsNewer(m, r), resp.updated, key, upd, id);
    } else {
      CachedKeptHasRow(p, cache, rows, id);
    }
  }

  /** A key of the merged map comes from `added`, from `updated`, or is a cached id not deleted. */
  lemma MergedKeyCases(cache: seq<CalendarEvent>, deleted: seq<string>, upd: seq<DecryptedEvent>, add: seq<DecryptedEvent>, id: string)
    requires MergedMap(cache, deleted, upd, add).Get(id).Some?
    ensures Lookup(DataById(add), id).Some? || Lookup(DataById(upd), id).Some? || (id !in deleted && IsCachedId(cache, id))
  {
    MergedMapGet(cache, deleted, upd, add, id);
    if Lookup(DataById(add), id).None? && Lookup(DataById(upd), id).None? {
      LookupMembers(ById(cache, EventId), id);
      var i :| 0 <= i < |cache| && ById(cache, EventId)[i].0 == id;
    }
  }

  /** A cached id the diff does not delete is an id of some row. */
  lemma CachedKeptHasRow(p: Prims, cache: seq<CalendarEvent>, rows: seq<StoredEvent>, id: string)
    requires DistinctIds(cache)
    requires UuidsRoundTrip(p, cache)
    requires IsCachedId(cache, id) && id !in Diff(p, cache, rows).deleted
    ensures exists r :: r in rows && r.id == id
  {
    DeletedFacts(p, cache, rows, Diff(p, cache, rows).deleted);
  }

  /** A cached event whose row is not strictly newer survives the merge unchanged. */
  lemma SyncKeepsCached(p: Prims, cache: seq<CalendarEvent>, rows: seq<StoredEvent>, key: Key, i: nat, r: StoredEvent)
    requires DistinctIds(cache)
    requires DistinctRows(rows)
    requires UuidsRoundTrip(p, cache)
    requires MergeDiffMap(p, cache, Diff(p, cache, rows), key).Some?
    requires i < |cache| && r in rows && r.id == cache[i].id && r.updatedAt <= cache[i].timestamp
    ensures MergeDiffMap(p, cache, Diff(p, cache, rows), key).value.Get(r.id) == Some(cache[i])
  {
    var resp := Diff(p, cache, rows);
    var upd := DecryptEvents(p, resp.updated, key).value;
    var add := DecryptEvents(p, resp.added, key).value;
    assert MergeDiffMap(p, cache, resp, key).value == MergedMap(cache, resp.deleted, upd, add);
    CachedNotAdded(p, cache, rows, key, i, add);
    CachedNotUpdated(p, cache, rows, key, i, r, upd);
    DeletedFacts(p, cache, rows, Diff(p, cache, rows).deleted);
    assert r.id !in resp.deleted;
    MergedMapGet(cache, resp.deleted, upd, add, r.id);
    CachedLookup(cache, i);
  }

  /** A cached id is not in the diff's `added` list. */
  lemma CachedNotAdded(p: Prims, cache: seq<CalendarEvent>, rows: seq<StoredEvent>, key: Key, i: nat, add: seq<DecryptedEvent>)
    requires DistinctIds(cache)
    requires UuidsRoundTrip(p, cache)
    requires i < |cache|
    requires DecryptEvents(p, Diff(p, cache, rows).added, key) == Some(add)
    ensures Lookup(DataById(add), cache[i].id).None?
  {
    var m := IdToMillis(p, Checkpoint(p, cache));
    CachedInCheckpoint(p, cache, i);
    if Lookup(DataById(add), cache[i].id).Some? {
      AddedFacts(p, cache, rows);
      DiffLookupKey(p, rows, (r: StoredEvent) => r.id !in m, Diff(p, cache, rows).added, key, add, cache[i].id);
      assert false;
    }
  }

  /** A cached id whose row is not strictly newer is not in the diff's `updated` list. */
  lemma CachedNotUpdated(p: Prims, cache: seq<CalendarEvent>, rows: seq<StoredEvent>, key: Key, i: nat, r: StoredEvent,
                         upd: seq<DecryptedEvent>)
    requires DistinctIds(cache)
    requires DistinctRows(rows)
    requires UuidsRoundTrip(p, cache)
    requires i < |cache| && r in rows && r.id == cache[i].id && r.updatedAt <= cache[i].timestamp
    requires DecryptEvents(p, Diff(p, cache, rows).updated, key) == Some(upd)
    ensures Lookup(DataById(upd), r.id).None?
  {
    var m := IdToMillis(p, Checkpoint(p, cache));
    CachedInCheckpoint(p, cache, i);
    if Lookup(DataById(upd), r.id).Some? {
      UpdatedFacts(p, cache, rows);
      DiffLookupKey(p, rows, (r: StoredEvent) => IsNewer(m, r), Diff(p, cache, rows).updated, key, upd, r.id);
      assert false;
    }
  }

  /** With distinct ids, looking a cached id up in the cache's entries finds that event. */
  lemma CachedLookup(cache: seq<CalendarEvent>, i: nat)
    requires DistinctIds(cache)
    requires i < |cache|
    ensures Lookup(ById(cache, EventId), cache[i].id) == Some(cache[i])
  {
    assert ById(cache, EventId)[i].0 == cache[i].id;
    assert forall j :: i < j < |cache| ==> ById(cache, EventId)[j].0 != cache[i].id;
    LookupMembers(ById(cache, EventId), cache[i].id);
  }

  /** A row that is new to the client or strictly newer than its cached copy is taken from the server. */
  lemma SyncTakesServer(p: Prims, cache: seq<CalendarEvent>, rows: seq<StoredEvent>, key: Key, r: StoredEvent)
    requires DistinctIds(cache)
    requires DistinctRows(rows)
    requires UuidsRoundTrip(p, cache)
    requires MergeDiffMap(p, cache, Diff(p, cache, rows), key).Some?
    requires r in rows
    requires forall i :: 0 <= i < |cache| && cache[i].id == r.id ==> r.updatedAt > cache[i].timestamp
    ensures Fetched(p, r, key).Some?
    ensures MergeDiffMap(p, cache, Diff(p, cache, rows), key).value.Get(r.id) == Fetched(p, r, key)
  {
    var m := IdToMillis(p, Checkpoint(p, cache));
    var resp := Diff(p, cache, rows);
    var upd := DecryptEvents(p, resp.updated, key).value;
    var add := DecryptEvents(p, resp.added, key).value;
    CheckpointOnServer(p, cache, m);
    UpdatedFacts(p, cache, rows);
    AddedFacts(p, cache, rows);
    DeletedFacts(p, cache, rows, Diff(p, cache, rows).deleted);
    MergedMapGet(cache, resp.deleted, upd, add, r.id);
    if r.id in m {
      var i :| 0 <= i < |cache| && cache[i].id == r.id;
      assert IsNewer(m, r);
      DiffLookupRow(p, rows, (r: StoredEvent) => IsNewer(m, r), resp.updated, key, upd, r);
      if Lookup(DataById(add), r.id).Some? {
        DiffLookupKey(p, rows, (r: StoredEvent) => r.id !in m, resp.added, key, add, r.id);
        assert false;
      }
    } else {
      DiffLookupRow(p, rows, (r: StoredEvent) => r.id !in m, resp.added, key, add, r);
    }
  }

  /**
   * After one sync the merged cache has exactly the server's ids; a
   * cached event whose stored row is not strictly newer survives as is,
   * and every other id holds the server's copy.
   */
  lemma SyncConverges(p: Prims, cache: seq<CalendarEvent>, rows: seq<StoredEvent>, key: Key)
    requires DistinctIds(cache)
    requires DistinctRows(rows)
    requires UuidsRoundTrip(p, cache)
    requires MergeDiffMap(p, cache, Diff(p, cache, rows), key).Some?
    ensures var final := MergeDiffMap(p, cache, Diff(p, cache, rows), key).value;
      && (forall id :: final.Get(id).Some? <==> exists r :: r in rows && r.id == id)
      && (forall i, r :: 0 <= i < |cache| && r in rows && r.id == cache[i].id && r.updatedAt <= cache[i].timestamp ==>
            final.Get(r.id) == Some(cache[i]))
      && (forall r :: r in rows && (forall i :: 0 <= i < |cache| && cache[i].id == r.id ==> r.updatedAt > cache[i].timestamp) ==>
            final.Get(r.id) == Fetched(p, r, key) && Fetched(p, r, key).Some?)
  {
    var final := MergeDiffMap(p, cache, Diff(p, cache, rows), key).value;
    forall i, r | 0 <= i < |cache| && r in rows && r.id == cache[i].id && r.updatedAt <= cache[i].timestamp
      ensures final.Get(r.id) == Some(cache[i])
    {
      SyncKeepsCached(p, cache, rows, key, i, r);
    }
    forall r | r in rows && (forall i :: 0 <= i < |cache| && cache[i].id == r.id ==> r.updatedAt > cache[i].timestamp)
      ensures final.Get(r.id) == Fetched(p, r, key) && Fetched(p, r, key).Some?
    {
      SyncTakesServer(p, cache, rows, key, r);
    }
    forall id ensures final.Get(id).Some? <==> exists r :: r in rows && r.id == id {
      if final.Get(id).Some? {
        SyncKeysFromServer(p, cache, rows, key, id);
      }
      if exists r :: r in rows && r.id == id {
        var r :| r in rows && r.id == id;
        if exists i :: 0 <= i < |cache| && cache[i].id == r.id && r.updatedAt <= cache[i].timestamp {
          var i :| 0 <= i < |cache| && cache[i].id == r.id && r.updatedAt <= cache[i].timestamp;
          SyncKeepsCached(p, cache, rows, key, i, r);
        } else {
          SyncTakesServer(p, cache, rows, key, r);
        }
      }
    }
  }
}
