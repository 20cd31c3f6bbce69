/**
 * The server's calendar handlers: `SaveCalendarEvents` applies a batch of
 * changes to the `calendar_events` table in one transaction, and
 * `SyncCalendarEvents` diffs the owner's rows against a client checkpoint.
 */
module CalendarHandlers {
  import opened Wrappers
  import opened Types
  import opened Platform
  import ServerUtils

  /** A row of `calendar_events`, keyed by its id: owner, ciphertext and version stamp in milliseconds. */
  datatype DbRow = DbRow(owner: string, data: Bytes, updatedAt: int)

  /** `types.CalendarEvent`: a row as the handlers read or write it. */
  datatype StoredEvent = StoredEvent(id: string, data: Bytes, updatedAt: int)

  /** One element of the save body; absent JSON fields decode to empty strings and zeros. */
  datatype SaveChange = SaveChange(kind: string, id: string, event: EncryptedEvent)

  /** The `calendar_events` table. `id` is its only primary key, so ids are unique across owners. */
  class EventTable {
    var rows: map<string, DbRow>
    /** Transactions begun, to tell an empty save from one that opened a transaction. */
    var transactions: nat

    constructor (initial: map<string, DbRow>)
      ensures rows == initial && transactions == 0
    {
      rows := initial;
      transactions := 0;
    }
  }

  /* ------------------------------ save: split ------------------------------ */

  predicate IsUpsertKind(kind: string) {
    kind == "added" || kind == "updated"
  }

  /** What one change contributes to the id list of the batch delete. */
  function DeleteOf(c: SaveChange): seq<string> {
    if c.kind == "deleted" then [c.id] else []
  }

  /** What one change contributes to the batch upsert: nothing for other kinds or bad base64. */
  function UpsertOf(p: Prims, c: SaveChange): seq<StoredEvent> {
    if IsUpsertKind(c.kind) then
      match p.decode64(c.event.data)
      case None => []
      case Some(decoded) => [StoredEvent(c.event.id, decoded, c.event.updatedAt)]
    else []
  }

  function DeleteIds(changes: seq<SaveChange>): seq<string> {
    if changes == [] then []
    else DeleteIds(changes[..|changes| - 1]) + DeleteOf(changes[|changes| - 1])
  }

  function Upserts(p: Prims, changes: seq<SaveChange>): seq<StoredEvent> {
    if changes == [] then []
    else Upserts(p, changes[..|changes| - 1]) + UpsertOf(p, changes[|changes| - 1])
  }

  /** The delete list commutes with concatenation: it keeps the input order. */
  lemma {:induction false} DeleteIdsConcat(a: seq<SaveChange>, b: seq<SaveChange>)
    ensures DeleteIds(a + b) == DeleteIds(a) + DeleteIds(b)
    decreases |b|
  {
    if b == [] {
      assert a + b == a;
    } else {
      var b' := b[..|b| - 1];
      assert (a + b)[..|a + b| - 1] == a + b';
      DeleteIdsConcat(a, b');
    }
  }

  /** The upsert list commutes with concatenation: it keeps the input order. */
  lemma {:induction false} UpsertsConcat(p: Prims, a: seq<SaveChange>, b: seq<SaveChange>)
    ensures Upserts(p, a + b) == Upserts(p, a) + Upserts(p, b)
    decreases |b|
  {
    if b == [] {
      assert a + b == a;
    } else {
      var b' := b[..|b| - 1];
      assert (a + b)[..|a + b| - 1] == a + b';
      UpsertsConcat(p, a, b');
    }
  }

  /** A single change lands in at most one list; other kinds land in none. */
  lemma SplitOne(p: Prims, c: SaveChange)
    ensures DeleteIds([c]) == DeleteOf(c) && Upserts(p, [c]) == UpsertOf(p, c)
    ensures DeleteOf(c) == [] || UpsertOf(p, c) == []
    ensures c.kind == "deleted" ==> DeleteOf(c) == [c.id]
    ensures IsUpsertKind(c.kind) && p.decode64(c.event.data).Some? ==>
      UpsertOf(p, c) == [StoredEvent(c.event.id, p.decode64(c.event.data).value, c.event.updatedAt)]
    ensures c.kind != "deleted" && !IsUpsertKind(c.kind) ==> DeleteOf(c) == [] && UpsertOf(p, c) == []
  {
    assert [c][..0] == [];
  }

  /* --------------------------- save: table effect --------------------------- */

  /** `DELETE ... WHERE owner = ? AND id IN (...)`. */
  function DeleteOwned(rows: map<string, DbRow>, owner: string, ids: seq<string>): (r: map<string, DbRow>)
    ensures forall id :: id in r <==> id in rows && !(rows[id].owner == owner && id in ids)
    ensures forall id :: id in r ==> r[id] == rows[id]
  {
    map id | id in rows && !(rows[id].owner == owner && id in ids) :: rows[id]
  }

  /**
   * `INSERT ... ON DUPLICATE KEY UPDATE data, updated_at` as the handler
   * issues it, for one row: `id` is the table's only key, so a duplicate id
   * updates the existing row's data and stamp whoever owns it, and keeps
   * that row's owner.
   */
  function UpsertRowAsWritten(rows: map<string, DbRow>, owner: string, e: StoredEvent): map<string, DbRow> {
    if e.id in rows then rows[e.id := rows[e.id].(data := e.data, updatedAt := e.updatedAt)]
    else rows[e.id := DbRow(owner, e.data, e.updatedAt)]
  }

  /** The multi-row upsert as issued: its rows take effect one after another, in order. */
  function UpsertAllAsWritten(rows: map<string, DbRow>, owner: string, es: seq<StoredEvent>): map<string, DbRow> {
    if es == [] then rows
    else UpsertRowAsWritten(UpsertAllAsWritten(rows, owner, es[..|es| - 1]), owner, es[|es| - 1])
  }

  /** The committed table: all deletes first, then all upserts in order, as the handler issues them. */
  function Committed(p: Prims, rows: map<string, DbRow>, owner: string, changes: seq<SaveChange>): map<string, DbRow> {
    UpsertAllAsWritten(DeleteOwned(rows, owner, DeleteIds(changes)), owner, Upserts(p, changes))
  }

  /**
   * The corrected upsert for one row: a row of another owner with the same
   * id is left alone, so a save can only touch the caller's rows.
   */
  function UpsertRow(rows: map<string, DbRow>, owner: string, e: StoredEvent): map<string, DbRow> {
    if e.id in rows && rows[e.id].owner != owner then rows
    else rows[e.id := DbRow(owner, e.data, e.updatedAt)]
  }

  function UpsertAll(rows: map<string, DbRow>, owner: string, es: seq<StoredEvent>): map<string, DbRow> {
    if es == [] then rows
    else UpsertRow(UpsertAll(rows, owner, es[..|es| - 1]), owner, es[|es| - 1])
  }

  /** The corrected save: the same deletes, then the owner-guarded upserts. */
  function CommittedGuarded(p: Prims, rows: map<string, DbRow>, owner: string, changes: seq<SaveChange>): map<string, DbRow> {
    UpsertAll(DeleteOwned(rows, owner, DeleteIds(changes)), owner, Upserts(p, changes))
  }

  /** The loop that sorts the batch into the delete list and the upsert list. */
  method SplitChanges(p: Prims, changes: seq<SaveChange>) returns (deletedIds: seq<string>, upserts: seq<StoredEvent>)
    ensures deletedIds == DeleteIds(changes)
    ensures upserts == Upserts(p, changes)
  {
    deletedIds := [];
    upserts := [];
    var i := 0;
    while i < |changes|
      invariant 0 <= i <= |changes|
      invariant deletedIds == DeleteIds(changes[..i])
      invariant upserts == Upserts(p, changes[..i])
    {
      var c := changes[i];
      SplitStep(p, changes, i);
      if c.kind == "deleted" {
        deletedIds := deletedIds + [c.id];
      } else if c.kind == "added" || c.kind == "updated" {
        var decoded := p.decode64(c.event.data);
        if decoded.Some? {
          upserts := upserts + [StoredEvent(c.event.id, decoded.value, c.event.updatedAt)];
        }
      }
      i := i + 1;
    }
    assert changes[..i] == changes;
  }

  lemma SplitStep(p: Prims, changes: seq<SaveChange>, i: nat)
    requires i < |changes|
    ensures DeleteIds(changes[..i + 1]) == DeleteIds(changes[..i]) + DeleteOf(changes[i])
    ensures Upserts(p, changes[..i + 1]) == Upserts(p, changes[..i]) + UpsertOf(p, changes[i])
  {
    assert changes[..i + 1][..i] == changes[..i];
  }

  /** The prepared upsert executed once per row, in order. */
  method UpsertEach(rows0: map<string, DbRow>, owner: string, upserts: seq<StoredEvent>) returns (rows: map<string, DbRow>)
    ensures rows == UpsertAllAsWritten(rows0, owner, upserts)
  {
    rows := rows0;
    var k := 0;
    while k < |upserts|
      invariant 0 <= k <= |upserts|
      invariant rows == UpsertAllAsWritten(rows0, owner, upserts[..k])
    {
      assert upserts[..k + 1][..k] == upserts[..k];
      rows := UpsertRowAsWritten(rows, owner, upserts[k]);
      k := k + 1;
    }
    assert upserts[..k] == upserts;
  }

  /**
   * `SaveCalendarEvents` for the signed-in `owner`, with `clientId` the
   * `c` query parameter; `push` is the sync notification sent to the
   * owner's other devices. Database failures are not modelled.
   */
  method SaveCalendarEvents(p: Prims, db: EventTable, owner: string, changes: seq<SaveChange>, clientId: string)
    returns (push: Option<string>)
    modifies db
    ensures changes == [] ==> db.rows == old(db.rows) && db.transactions == old(db.transactions) && push == None
    ensures changes != [] ==> db.transactions == old(db.transactions) + 1
    ensures changes != [] ==> db.rows == Committed(p, old(db.rows), owner, changes)
    ensures changes != [] ==> push == (if clientId != "" && |clientId| == 6 then Some(clientId) else None)
  {
    if |changes| == 0 {
      return None;
    }
    db.transactions := db.transactions + 1;

    var deletedIds, upserts := SplitChanges(p, changes);
    var rows := db.rows;
    if |deletedIds| > 0 {
      rows := DeleteOwned(rows, owner, deletedIds);
    } else {
      assert DeleteOwned(rows, owner, deletedIds) == rows;
    }
    rows := UpsertEach(rows, owner, upserts);
    db.rows := rows;

    if clientId != "" && |clientId| == 6 {
      push := Some(clientId);
    } else {
      push := None;
    }
  }

  /* ------------------------------ save: lemmas ------------------------------ */

  /** Whether some upsert of the batch names `id`. */
  predicate Upserted(es: seq<StoredEvent>, id: string) {
    exists k :: 0 <= k < |es| && es[k].id == id
  }

  /**
   * The upsert as issued never removes a row or changes a row's owner; a
   * row it adds is the caller's and comes from an upserted id; a row no
   * upsert names keeps its data and stamp.
   */
  lemma {:induction false} UpsertAllAsWrittenFrame(rows: map<string, DbRow>, owner: string, es: seq<StoredEvent>)
    ensures forall id :: id in rows ==>
      id in UpsertAllAsWritten(rows, owner, es) && UpsertAllAsWritten(rows, owner, es)[id].owner == rows[id].owner
    ensures forall id :: id in UpsertAllAsWritten(rows, owner, es) && id !in rows ==>
      UpsertAllAsWritten(rows, owner, es)[id].owner == owner && Upserted(es, id)
    ensures forall id :: id in rows && !Upserted(es, id) ==>
      UpsertAllAsWritten(rows, owner, es)[id] == rows[id]
  {
    if es != [] {
      var init := es[..|es| - 1];
      UpsertAllAsWrittenFrame(rows, owner, init);
      forall id | id in UpsertAllAsWritten(rows, owner, es) && id !in rows
        ensures Upserted(es, id)
      {
        if id != es[|es| - 1].id {
          var k :| 0 <= k < |init| && init[k].id == id;
          assert es[k] == init[k];
        }
      }
      forall id | id in rows && !Upserted(es, id)
        ensures UpsertAllAsWritten(rows, owner, es)[id] == rows[id]
      {
        assert forall k :: 0 <= k < |init| ==> init[k] == es[k];
        assert es[|es| - 1].id != id;
      }
    }
  }

  /**
   * The last upsert for an id decides that row's data and stamp; the row
   * keeps its owner if it existed and is the caller's otherwise.
   */
  lemma {:induction false} UpsertAllAsWrittenLast(rows: map<string, DbRow>, owner: string, es: seq<StoredEvent>, j: nat)
    requires j < |es|
    requires forall k :: j < k < |es| ==> es[k].id != es[j].id
    ensures es[j].id in UpsertAllAsWritten(rows, owner, es)
    ensures UpsertAllAsWritten(rows, owner, es)[es[j].id] ==
      DbRow(if es[j].id in rows then rows[es[j].id].owner else owner, es[j].data, es[j].updatedAt)
  {
    var init := es[..|es| - 1];
    if j < |es| - 1 {
      UpsertAllAsWrittenLast(rows, owner, init, j);
    } else {
      UpsertAllAsWrittenFrame(rows, owner, init);
    }
  }

  /**
   * A save as issued keeps every row of another owner, with its owner;
   * such a row changes only when an upsert of the batch names its id; and
   * no row of another owner is created.
   */
  lemma SaveOtherOwnersAsWritten(p: Prims, rows: map<string, DbRow>, owner: string, changes: seq<SaveChange>)
    ensures forall id :: id in rows && rows[id].owner != owner ==>
      id in Committed(p, rows, owner, changes) && Committed(p, rows, owner, changes)[id].owner == rows[id].owner
    ensures forall id :: id in rows && rows[id].owner != owner && !Upserted(Upserts(p, changes), id) ==>
      Committed(p, rows, owner, changes)[id] == rows[id]
    ensures forall id :: id in Committed(p, rows, owner, changes) && Committed(p, rows, owner, changes)[id].owner != owner ==>
      id in rows && rows[id].owner == Committed(p, rows, owner, changes)[id].owner
  {
    var deleted := DeleteOwned(rows, owner, DeleteIds(changes));
    UpsertAllAsWrittenFrame(deleted, owner, Upserts(p, changes));
    forall id | id in rows && rows[id].owner != owner && !Upserted(Upserts(p, changes), id)
      ensures Committed(p, rows, owner, changes)[id] == rows[id]
    {
      assert id in deleted && deleted[id] == rows[id];
    }
  }

  /**
   * Deletes run before upserts: an id both deleted and upserted in one
   * batch ends with the data of its last upsert. The row belongs to the
   * caller, except that a row of another owner with that id keeps its
   * owner and takes the caller's data.
   */
  lemma DeleteThenUpsert(p: Prims, rows: map<string, DbRow>, owner: string, changes: seq<SaveChange>, j: nat)
    requires j < |Upserts(p, changes)|
    requires forall k :: j < k < |Upserts(p, changes)| ==> Upserts(p, changes)[k].id != Upserts(p, changes)[j].id
    ensures var e := Upserts(p, changes)[j];
      e.id in Committed(p, rows, owner, changes) &&
      Committed(p, rows, owner, changes)[e.id] ==
        DbRow(if e.id in rows && rows[e.id].owner != owner then rows[e.id].owner else owner, e.data, e.updatedAt)
  {
    var deleted := DeleteOwned(rows, owner, DeleteIds(changes));
    UpsertAllAsWrittenLast(deleted, owner, Upserts(p, changes), j);
  }

  /** The statement as issued lets one user overwrite another user's row. */
  lemma CrossOwnerOverwrite()
    ensures var rows := map["e1" := DbRow("alice", [1], 5)];
      var written := UpsertAllAsWritten(rows, "mallory", [StoredEvent("e1", [2], 6)]);
      written["e1"] == DbRow("alice", [2], 6) && written["e1"] != rows["e1"]
  {
    var rows := map["e1" := DbRow("alice", [1], 5)];
    var es := [StoredEvent("e1", [2], 6)];
    assert es[..0] == [];
  }

  /**
   * The issued statement changes a foreign row exactly when an upserted
   * id collides with it, where the corrected upsert leaves it alone.
   */
  lemma CrossOwnerOverwriteGeneral(rows: map<string, DbRow>, owner: string, e: StoredEvent)
    requires e.id in rows && rows[e.id].owner != owner
    ensures UpsertRowAsWritten(rows, owner, e)[e.id] == DbRow(rows[e.id].owner, e.data, e.updatedAt)
    ensures UpsertRow(rows, owner, e) == rows
  {
  }

  /** The corrected upsert never touches a row another owner holds, and creates none. */
  lemma {:induction false} UpsertAllKeepsOthers(rows: map<string, DbRow>, owner: string, es: seq<StoredEvent>)
    ensures forall id :: id in rows && rows[id].owner != owner ==>
      id in UpsertAll(rows, owner, es) && UpsertAll(rows, owner, es)[id] == rows[id]
    ensures forall id :: id in UpsertAll(rows, owner, es) && UpsertAll(rows, owner, es)[id].owner != owner ==>
      id in rows && rows[id] == UpsertAll(rows, owner, es)[id]
  {
    if es != [] {
      UpsertAllKeepsOthers(rows, owner, es[..|es| - 1]);
    }
  }

  /** With the corrected upsert, a save leaves every other owner's rows exactly as they were. */
  lemma SaveKeepsOtherOwners(p: Prims, rows: map<string, DbRow>, owner: string, changes: seq<SaveChange>)
    ensures forall id :: id in rows && rows[id].owner != owner ==>
      id in CommittedGuarded(p, rows, owner, changes) && CommittedGuarded(p, rows, owner, changes)[id] == rows[id]
    ensures forall id :: id in CommittedGuarded(p, rows, owner, changes) && CommittedGuarded(p, rows, owner, changes)[id].owner != owner ==>
      id in rows && rows[id] == CommittedGuarded(p, rows, owner, changes)[id]
  {
    UpsertAllKeepsOthers(DeleteOwned(rows, owner, DeleteIds(changes)), owner, Upserts(p, changes));
  }

  /** Without id collisions across owners the corrected upsert is the statement as issued. */
  lemma {:induction false} UpsertAllAgrees(rows: map<string, DbRow>, owner: string, es: seq<StoredEvent>)
    requires forall e :: e in es ==> e.id !in rows || rows[e.id].owner == owner
    ensures UpsertAll(rows, owner, es) == UpsertAllAsWritten(rows, owner, es)
  {
    if es != [] {
      var init := es[..|es| - 1];
      assert forall e :: e in init ==> e in es;
      UpsertAllAgrees(rows, owner, init);
      UpsertAllKeepsOthers(rows, owner, init);
    }
  }

  /** With the corrected upsert, the last upsert for a free or owned id decides its row. */
  lemma {:induction false} UpsertAllLast(rows: map<string, DbRow>, owner: string, es: seq<StoredEvent>, j: nat)
    requires j < |es|
    requires forall k :: j < k < |es| ==> es[k].id != es[j].id
    requires es[j].id !in rows || rows[es[j].id].owner == owner
    ensures es[j].id in UpsertAll(rows, owner, es)
    ensures UpsertAll(rows, owner, es)[es[j].id] == DbRow(owner, es[j].data, es[j].updatedAt)
  {
    var init := es[..|es| - 1];
    if j < |es| - 1 {
      UpsertAllLast(rows, owner, init, j);
    } else {
      UpsertAllKeepsOthers(rows, owner, init);
    }
  }

  /* ------------------------------ sync: diffing ------------------------------ */

  /** The id the handler keeps for a checkpoint entry: converted if it decodes, else the raw string. */
  function CheckpointId(p: Prims, c: CachedEvent): string {
    match ServerUtils.Base64ToUUID(p, c.id)
    case Success(u) => u
    case Failure(_) => c.id
  }

  /** `cached[i].ID` after the conversion loop. */
  function CheckpointIds(p: Prims, cached: seq<CachedEvent>): (ids: seq<string>)
    ensures |ids| == |cached|
    ensures forall i :: 0 <= i < |cached| ==> ids[i] == CheckpointId(p, cached[i])
  {
    seq(|cached|, i requires 0 <= i < |cached| => CheckpointId(p, cached[i]))
  }

  /** `idToMillis`: converted ids only, a later entry for the same id winning. */
  function IdToMillis(p: Prims, cached: seq<CachedEvent>): map<string, int> {
    if cached == [] then map[]
    else
      var m := IdToMillis(p, cached[..|cached| - 1]);
      var c := cached[|cached| - 1];
      match ServerUtils.Base64ToUUID(p, c.id)
      case Success(u) => m[u := c.ts]
      case Failure(_) => m
  }

  function RowIds(rows: seq<StoredEvent>): set<string> {
    if rows == [] then {} else RowIds(rows[..|rows| - 1]) + {rows[|rows| - 1].id}
  }

  /** The wire form of a row. */
  function Wire(p: Prims, r: StoredEvent): EncryptedEvent {
    EncryptedEvent(r.id, p.encode64(r.data), r.updatedAt)
  }

  predicate IsNewer(m: map<string, int>, r: StoredEvent) {
    r.id in m && r.updatedAt > m[r.id]
  }

  function UpdatedRows(p: Prims, rows: seq<StoredEvent>, m: map<string, int>): seq<EncryptedEvent> {
    if rows == [] then []
    else
      var r := rows[|rows| - 1];
      UpdatedRows(p, rows[..|rows| - 1], m) + (if IsNewer(m, r) then [Wire(p, r)] else [])
  }

  function AddedRows(p: Prims, rows: seq<StoredEvent>, m: map<string, int>): seq<EncryptedEvent> {
    if rows == [] then []
    else
      var r := rows[|rows| - 1];
      AddedRows(p, rows[..|rows| - 1], m) + (if r.id !in m then [Wire(p, r)] else [])
  }

  function DeletedIds(ids: seq<string>, seen: set<string>): seq<string> {
    if ids == [] then []
    else
      var id := ids[|ids| - 1];
      DeletedIds(ids[..|ids| - 1], seen) + (if id !in seen then [id] else [])
  }

  /** The diff the handler computes. */
  function SyncResponse(p: Prims, cached: seq<CachedEvent>, rows: seq<StoredEvent>): EventSyncResponse {
    var m := IdToMillis(p, cached);
    EventSyncResponse(
      UpdatedRows(p, rows, m),
      DeletedIds(CheckpointIds(p, cached), RowIds(rows)),
      AddedRows(p, rows, m))
  }

  /** The conversion loop: rewrites each decodable checkpoint id in place and builds `idToMillis`. */
  method ConvertCheckpoint(p: Prims, cached: array<CachedEvent>) returns (idToMillis: map<string, int>)
    modifies cached
    ensures idToMillis == IdToMillis(p, old(cached[..]))
    ensures cached[..] == Converted(p, old(cached[..]), cached.Length)
  {
    ghost var orig := cached[..];
    idToMillis := map[];
    var i := 0;
    while i < cached.Length
      invariant 0 <= i <= cached.Length
      invariant idToMillis == IdToMillis(p, orig[..i])
      invariant cached[..] == Converted(p, orig, i)
    {
      var c := cached[i];
      var uuid := ServerUtils.Base64ToUUID(p, c.id);
      IdToMillisStep(p, orig, i);
      ConvertedStep(p, orig, i);
      if uuid.Success? {
        cached[i] := c.(id := uuid.value);
        idToMillis := idToMillis[uuid.value := c.ts];
      }
      i := i + 1;
    }
    assert orig[..i] == orig;
  }

  /** The checkpoint array after the first `i` ids are rewritten. */
  function Converted(p: Prims, orig: seq<CachedEvent>, i: nat): (r: seq<CachedEvent>)
    requires i <= |orig|
    ensures |r| == |orig|
  {
    seq(|orig|, j requires 0 <= j < |orig| => if j < i then orig[j].(id := CheckpointId(p, orig[j])) else orig[j])
  }

  lemma ConvertedStep(p: Prims, orig: seq<CachedEvent>, i: nat)
    requires i < |orig|
    ensures Converted(p, orig, i + 1) == Converted(p, orig, i)[i := orig[i].(id := CheckpointId(p, orig[i]))]
    ensures ServerUtils.Base64ToUUID(p, orig[i].id).Failure? ==> Converted(p, orig, i + 1) == Converted(p, orig, i)
  {
  }

  lemma IdToMillisStep(p: Prims, cached: seq<CachedEvent>, i: nat)
    requires i < |cached|
    ensures IdToMillis(p, cached[..i + 1]) ==
      match ServerUtils.Base64ToUUID(p, cached[i].id)
      case Success(u) => IdToMillis(p, cached[..i])[u := cached[i].ts]
      case Failure(_) => IdToMillis(p, cached[..i])
  {
    assert cached[..i + 1][..i] == cached[..i];
  }

  /** The loop over the owner's rows: records seen ids and sorts rows into updated and added. */
  method ClassifyRows(p: Prims, rows: seq<StoredEvent>, idToMillis: map<string, int>)
    returns (seen: set<string>, updated: seq<EncryptedEvent>, added: seq<EncryptedEvent>)
    ensures seen == RowIds(rows)
    ensures updated == UpdatedRows(p, rows, idToMillis)
    ensures added == AddedRows(p, rows, idToMillis)
  {
    seen := {};
    updated := [];
    added := [];
    var k := 0;
    while k < |rows|
      invariant 0 <= k <= |rows|
      invariant seen == RowIds(rows[..k])
      invariant updated == UpdatedRows(p, rows[..k], idToMillis)
      invariant added == AddedRows(p, rows[..k], idToMillis)
    {
      assert rows[..k + 1][..k] == rows[..k];
      var ev := rows[k];
      seen := seen + {ev.id};
      if ev.id in idToMillis {
        if ev.updatedAt > idToMillis[ev.id] {
          updated := updated + [Wire(p, ev)];
        }
      } else {
        added := added + [Wire(p, ev)];
      }
      k := k + 1;
    }
    assert rows[..k] == rows;
  }

  /** The loop over the converted checkpoint collecting ids that no row has. */
  method CollectDeleted(cached: array<CachedEvent>, seen: set<string>) returns (deleted: seq<string>)
    ensures deleted == DeletedIds(seq(cached.Length, j reads cached requires 0 <= j < cached.Length => cached[j].id), seen)
  {
    ghost var ids := seq(cached.Length, j reads cached requires 0 <= j < cached.Length => cached[j].id);
    deleted := [];
    var j := 0;
    while j < cached.Length
      invariant 0 <= j <= cached.Length
      invariant deleted == DeletedIds(ids[..j], seen)
    {
      assert ids[..j + 1][..j] == ids[..j];
      if cached[j].id !in seen {
        deleted := deleted + [cached[j].id];
      }
      j := j + 1;
    }
    assert ids[..j] == ids;
  }

  /**
   * `SyncCalendarEvents` for one owner: `rows` is what the owner query
   * returned, in its order. The request body is taken as parsed.
   */
  method SyncCalendarEvents(p: Prims, cachedIn: seq<CachedEvent>, rows: seq<StoredEvent>)
    returns (resp: EventSyncResponse)
    ensures resp == SyncResponse(p, cachedIn, rows)
  {
    var cached := new CachedEvent[|cachedIn|](i requires 0 <= i < |cachedIn| => cachedIn[i]);
    assert cached[..] == cachedIn;
    var idToMillis := ConvertCheckpoint(p, cached);
    var seen, updated, added := ClassifyRows(p, rows, idToMillis);
    var deleted := CollectDeleted(cached, seen);
    assert seq(cached.Length, j reads cached requires 0 <= j < cached.Length => cached[j].id) == CheckpointIds(p, cachedIn);
    resp := EventSyncResponse(updated, deleted, added);
  }

  /* ------------------------------ sync: lemmas ------------------------------ */

  lemma {:induction false} RowIdsMembers(rows: seq<StoredEvent>)
    ensures forall id :: id in RowIds(rows) <==> exists r :: r in rows && r.id == id
  {
    if rows != [] {
      var init := rows[..|rows| - 1];
      RowIdsMembers(init);
      assert rows == init + [rows[|rows| - 1]];
      assert forall r :: r in rows <==> r in init || r == rows[|rows| - 1];
    }
  }

  /** An updated record is a newer row already in the checkpoint; every such row is reported. */
  lemma {:induction false} UpdatedRowsMembers(p: Prims, rows: seq<StoredEvent>, m: map<string, int>)
    ensures forall e :: e in UpdatedRows(p, rows, m) ==> e.id in m && e.updatedAt > m[e.id]
    ensures forall e :: e in UpdatedRows(p, rows, m) ==> exists r :: r in rows && e == Wire(p, r)
    ensures forall r :: r in rows && IsNewer(m, r) ==> Wire(p, r) in UpdatedRows(p, rows, m)
  {
    if rows != [] {
      var init := rows[..|rows| - 1];
      UpdatedRowsMembers(p, init, m);
      assert rows == init + [rows[|rows| - 1]];
      assert forall r :: r in rows <==> r in init || r == rows[|rows| - 1];
    }
  }

  /** An added record is a row the checkpoint lacks; every such row is reported. */
  lemma {:induction false} AddedRowsMembers(p: Prims, rows: seq<StoredEvent>, m: map<string, int>)
    ensures forall e :: e in AddedRows(p, rows, m) ==> e.id !in m
    ensures forall e :: e in AddedRows(p, rows, m) ==> exists r :: r in rows && e == Wire(p, r)
    ensures forall r :: r in rows && r.id !in m ==> Wire(p, r) in AddedRows(p, rows, m)
  {
    if rows != [] {
      var init := rows[..|rows| - 1];
      AddedRowsMembers(p, init, m);
      assert rows == init + [rows[|rows| - 1]];
      assert forall r :: r in rows <==> r in init || r == rows[|rows| - 1];
    }
  }

  /** `deleted` is exactly the checkpoint ids with no row. */
  lemma {:induction false} DeletedIdsMembers(ids: seq<string>, seen: set<string>)
    ensures forall id :: id in DeletedIds(ids, seen) <==> id in ids && id !in seen
  {
    if ids != [] {
      var init := ids[..|ids| - 1];
      DeletedIdsMembers(init, seen);
      assert ids == init + [ids[|ids| - 1]];
    }
  }

  /** The converted ids are the keys of `idToMillis`. */
  lemma {:induction false} IdToMillisKeys(p: Prims, cached: seq<CachedEvent>)
    ensures forall id :: id in IdToMillis(p, cached) <==>
      exists i :: 0 <= i < |cached| && ServerUtils.Base64ToUUID(p, cached[i].id) == Success(id)
  {
    if cached != [] {
      var init := cached[..|cached| - 1];
      IdToMillisKeys(p, init);
      assert forall i :: 0 <= i < |init| ==> init[i] == cached[i];
    }
  }

  /** The stamp kept for a converted id is that of the last entry converting to it. */
  lemma {:induction false} IdToMillisLast(p: Prims, cached: seq<CachedEvent>, i: nat)
    requires i < |cached|
    requires ServerUtils.Base64ToUUID(p, cached[i].id).Success?
    requires forall j :: i < j < |cached| ==>
      ServerUtils.Base64ToUUID(p, cached[j].id) != ServerUtils.Base64ToUUID(p, cached[i].id)
    ensures ServerUtils.Base64ToUUID(p, cached[i].id).value in IdToMillis(p, cached)
    ensures IdToMillis(p, cached)[ServerUtils.Base64ToUUID(p, cached[i].id).value] == cached[i].ts
  {
    var init := cached[..|cached| - 1];
    if i < |cached| - 1 {
      assert forall j :: 0 <= j < |init| ==> init[j] == cached[j];
      IdToMillisLast(p, init, i);
    }
  }

  /**
   * The diff's three lists: every returned row is in exactly one of
   * `updated`/`added`, `updated` holds checkpointed rows strictly newer
   * than their checkpoint stamp, `added` holds rows the checkpoint lacks,
   * and `deleted` is the checkpoint ids no row has.
   */
  lemma SyncClassification(p: Prims, cached: seq<CachedEvent>, rows: seq<StoredEvent>)
    ensures var resp := SyncResponse(p, cached, rows);
      var m := IdToMillis(p, cached);
      && (forall e :: e in resp.updated ==> e.id in m && e.updatedAt > m[e.id])
      && (forall e :: e in resp.added ==> e.id !in m)
      && (forall e :: e in resp.updated ==> e !in resp.added)
      && (forall r :: r in rows && IsNewer(m, r) ==> Wire(p, r) in resp.updated)
      && (forall r :: r in rows && r.id !in m ==> Wire(p, r) in resp.added)
      && (forall r :: r in rows && r.id in m && r.updatedAt <= m[r.id] ==>
            Wire(p, r) !in resp.updated && Wire(p, r) !in resp.added)
      && (forall id :: id in resp.deleted <==> id in CheckpointIds(p, cached) && id !in RowIds(rows))
      && (forall id :: id in resp.deleted ==> forall r :: r in rows ==> r.id != id)
  {
    var m := IdToMillis(p, cached);
    UpdatedRowsMembers(p, rows, m);
    AddedRowsMembers(p, rows, m);
    DeletedIdsMembers(CheckpointIds(p, cached), RowIds(rows));
    RowIdsMembers(rows);
  }

  /** A checkpoint id that fails to decode is kept raw and still reported deleted when no row has it. */
  lemma UndecodableIdEchoed(p: Prims, cached: seq<CachedEvent>, rows: seq<StoredEvent>, i: nat)
    requires i < |cached|
    requires ServerUtils.Base64ToUUID(p, cached[i].id).Failure?
    requires forall r :: r in rows ==> r.id != cached[i].id
    ensures cached[i].id in SyncResponse(p, cached, rows).deleted
  {
    RowIdsMembers(rows);
    DeletedIdsMembers(CheckpointIds(p, cached), RowIds(rows));
    assert CheckpointIds(p, cached)[i] == cached[i].id;
  }
}
