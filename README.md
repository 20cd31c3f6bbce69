# acLife core, modelled in Dafny

acLife is an end-to-end encrypted calendar. The browser client (TypeScript, React) encrypts every event under a master key that is derived from the user's password. The server (Go) stores only ciphertext, authenticates users with SRP and never sees a password. This project models the parts of both sides that decide what data ends up where, and proves properties about that model.

**Sync and save.**
- `CalendarHandlers` models the server's `SyncCalendarEvents` and `SaveCalendarEvents`:
  - a sync sorts the server's rows into updated, added and deleted against the client's `{id, ts}` checkpoint;
  - a save splits a change list into deletes and upserts and commits deletes first.
- `EventsHook` models the client hook (`syncEvents`, `saveEvents`, `loadEvents`). It merges a diff into the cached map and re-applies saved changes to the cache.
- `SyncConvergence` proves the theorem that spans the two sides. After a merge, the client's ids are exactly the server's ids. A cached copy survives unchanged exactly when the server's row is not strictly newer.
- `CalendarView` models the calendar page: the pending-change map, drag arithmetic, new events and per-day bucketing.
- `CalendarReducer` models the in-memory event store.

**Crypto framing and codecs.**
- `Crypt` models the byte algorithms `timingSafeEqual`, `padUint8`, `bigintToUint8Array` and `SRP_CheckM2`, plus the nonce framing of `encrypt`/`decrypt`.
- `EventCodec` models the per-event and bulk codecs.
- `UnlockDialog` and `LoginFormModel` model the unlock check and the registration and login forms.

**Validators and helpers.**
- Client side: `Validators`, `ClientUtils` and `Dates`.
- Server side: `ServerUtils`.
- `GoStrings` holds the Go `strings` functions the handlers use.
- `OrderedMap` is a JavaScript `Map` with insertion order.

**Layout.** `DayLayout` and `Sorting` model `getDayEventStyles`: sort by start, group by overlap, place greedily into columns, then build the styles. `Agenda` models the sidebar agenda.

**Server state machines.**
- `Middleware`: the sliding-window rate limiter, the subscription cache and the subscription check.
- `AuthHandlers`: registration and the SRP session store.
- `PushHandlers`: the push endpoint checks.

**Client state machines.**
- `TapInteraction`: the touch-tap detector.
- `AppGating`: which dialog or screen the app shows.

**How the model is built.**
- Code that only computes becomes functions and lemmas.
- Code that changes state step by step becomes classes with `modifies` clauses, or methods with loops and invariants. Each one is proved against a specification function.
- The primitives the code calls but does not implement are fields of a record `Platform.Prims`:
  - AES-GCM, gzip, UTF-8, JSON, ISO dates, Base64 and Argon2;
  - lemmas that need it assume `Platform.Lawful(p)`, which states only their inverse laws (for example, decrypt inverts encrypt).
- The SRP libraries, the database, clocks and randomness are parameters:
  - `now` is an integer in milliseconds;
  - an event's start and end are integer minutes;
  - nonces, ids and tokens are passed in.

## Behaviour as written

Where the project's description of its behaviour and the code differ, the model follows the code:
- **Coalescing.** Pending changes are coalesced last-writer-wins. A later change for an id replaces the earlier one, so an add followed by a delete leaves a single "deleted" entry. Nothing is cancelled (`CalendarView.AddThenDeleteCoalesces`).
- **Diff decryption failure.** When the diff fails to decrypt, `syncEvents` returns an empty list and leaves the cache alone. It does not report an error.
- **Undecodable checkpoint ids.** A checkpoint id that does not decode as a UUID is kept raw, and it comes back in `deleted` (`CalendarHandlers.UndecodableIdEchoed`).
- **Meaning of "active".**
  - The authentication wrapper in `App.tsx` counts only "active" as an active subscription.
  - `AppShell.tsx` also counts "trialing".
  - The server's subscription check passes only "active".
  - The consequences are proved in `AppGating.TrialingUserSeesBoth` and `AppGating.TrialingLoadRefusedByServer`.
- **Offline users and the subscription dialog.** The wrapper does not check that the user is online, so a local-only profile on a server that requires subscriptions still gets the subscription dialog (`AppGating.OfflineUserSeesSubscriptionDialog`).
- **Stuck `saving` flag.** `saveEvents` sets `saving` before it checks for storage and a master key. When either is missing it returns with `saving` still set.
- **Unreadable salt.** In the unlock dialog, `atob(user.salt)` runs before the `try`. An unreadable salt therefore leaves the dialog loading, with no error shown (`UnlockDialog.Outcome.SaltUnreadable`).
- **Blank push allow-list.** A non-empty `PUSH_ALLOWED_ENDPOINTS` made only of white space and commas is still consulted, yet no entry in it matches, so every subscription is refused (`PushHandlers.BlankAllowListAdmitsNothing`). Only the empty string admits every host.
- **Access-token expiry.** `LoginVerify` writes an expiry 12 hours after login. It does not use `AccessTokenExpiry`, which is 7 days.
- **`vapidPublicKey`.** The server's metadata carries a `vapidPublicKey` key, and the client's strict metadata check rejects any top-level key other than `url`, `policies` and `registration`. The model states the client's check as written.

## Model

| member | source | states |
|---|---|---|
| CalendarReducer.WithoutId | client/src/reducers/calendarReducer.ts:23-24 | the `delete` filter never lengthens the list |
| CalendarReducer.WithoutIdCounts | client/src/reducers/calendarReducer.ts:23-24 | the filter drops every event with the id and keeps every other event with its multiplicity |
| CalendarReducer.WithoutIdConcat | client/src/reducers/calendarReducer.ts:23-24 | the filter distributes over concatenation, so the survivors keep their relative order |
| CalendarReducer.Reduce | client/src/reducers/calendarReducer.ts:4-28 | `set` yields exactly the given list; `add` appends one event after the unchanged state; `update` keeps the length and replaces exactly the events with the id by the patch spread over them, stamped with the current time; `delete` is the id filter; any other action returns the state |
| CalendarReducer.DeleteRemovesId | client/src/reducers/calendarReducer.ts:23-24 | after `delete` no event carries the id and every event with another id is still present |
| CalendarReducer.DeleteIdempotent | client/src/reducers/calendarReducer.ts:23-24 | deleting an id twice is the same as deleting it once |
| CalendarReducer.UpdateMissingId | client/src/reducers/calendarReducer.ts:13-22 | an `update` for an id no event has leaves the state unchanged |
| CalendarReducer.AddThenDelete | client/src/reducers/calendarReducer.ts:11-24 | adding an event with a fresh id and then deleting that id restores the original state |
| CalendarReducer.WithoutIdAbsent | client/src/reducers/calendarReducer.ts:23-24 | filtering an id no event has returns the same list |
| CalendarReducer.DragUpdateKeepsContent | client/src/reducers/calendarReducer.ts:13-22 | an update carrying only new times changes only `start`, `end` and the timestamp of the matching events |
| Types.Spread | client/src/reducers/calendarReducer.ts:16-20 | `{...ev, ...patch}`: each key the patch has replaces the event's; meaning given by `Types.SpreadFullPatch` and `Types.SpreadTimesPatch` |
| Types.FullPatch | client/src/components/calendar/EventEditor.tsx:46-54 | the edit dispatches the editor's whole event object as its patch, with the `description` and `color` keys always present; meaning given by `Types.SpreadFullPatch` |
| Types.TimesPatch | client/src/components/calendar/Calendar.tsx:298-305 | a drag dispatches only the new start and end; meaning given by `Types.SpreadTimesPatch` and `CalendarReducer.DragUpdateKeepsContent` |
| Types.SpreadFullPatch | client/src/reducers/calendarReducer.ts:16-20 | spreading the editor's event over any event gives exactly the editor's event: every field is replaced, an undefined description or colour included |
| Types.SpreadTimesPatch | client/src/components/calendar/Calendar.tsx:298-305 | a drag's patch changes the start and end and nothing else |
| Platform.BinaryString | client/src/lib/utils.ts:65-68 | the binary string has one character per byte, whose code is that byte |
| Platform.CharCodes | client/src/lib/utils.ts:76-79 | storing char codes into a `Uint8Array` gives one byte per character |
| Platform.CharCodesOfBinaryString | client/src/lib/utils.ts:62-82 | reading the char codes of a binary string gives back the bytes, and such a string is accepted by `btoa` |
| Platform.Btoa | client/src/lib/utils.ts:70 | `btoa` succeeds exactly on strings whose char codes are all below 256 |
| Platform.Atob | client/src/lib/utils.ts:74 | `atob` succeeds exactly on well-formed base64, and its output is a binary string |
| Platform.AtobBytes | client/src/lib/utils.ts:73-82 | decoding to a `Uint8Array` succeeds exactly on well-formed base64 and yields the decoded bytes |
| Crypt.Ascii | client/src/lib/crypt.ts:36-38 | the ASCII encoding keeps the length and maps each character to its code |
| Crypt.UnlockCheckIsAscii | client/src/lib/crypt.ts:36-38 | the sixteen unlock-check bytes are the ASCII text `unlock-check-ok!` |
| Crypt.TimingSafeEqual | client/src/lib/crypt.ts:125-132 | the OR-of-XOR loop answers true exactly when the two byte strings are equal, including the length check |
| Crypt.XorZeroIff | client/src/lib/crypt.ts:129 | two bytes XOR to zero exactly when they are equal |
| Crypt.OrZeroIff | client/src/lib/crypt.ts:129 | the accumulated OR stays zero exactly while every XOR so far was zero |
| Crypt.Zeros | client/src/lib/crypt.ts:136 | a fresh `Uint8Array(n)` is `n` zero bytes |
| Crypt.Pow256 | client/src/lib/crypt.ts:146-149 | powers of 256 are positive |
| Crypt.PadUint8 | client/src/lib/crypt.ts:134-139 | the input is returned when long enough, otherwise zeros followed by the input up to the length |
| Crypt.BEValueZerosPrefix | client/src/lib/crypt.ts:134-139 | leading zero bytes do not change the big-endian value |
| Crypt.BEValueZeros | client/src/lib/crypt.ts:142 | an all-zero buffer has value zero |
| Crypt.PaddedValue | client/src/lib/crypt.ts:134-139 | padding keeps the big-endian value, reaches the target length and keeps the input as its tail |
| Crypt.BEValueBound | client/src/lib/crypt.ts:141-162 | an `n`-byte encoding is below `256^n` |
| Crypt.DivMod256 | client/src/lib/crypt.ts:147-148 | taking `& 0xff` and `>> 8` of `256q + r` recovers `r` and `q` |
| Crypt.BEValueInjective | client/src/lib/crypt.ts:164-172 | two encodings of the same length with the same value are the same bytes |
| Crypt.BEValueSnoc | client/src/lib/crypt.ts:146-150 | appending a byte multiplies the value by 256 and adds the byte |
| Crypt.MinimalBEValue | client/src/lib/crypt.ts:144-150 | the bytes the loop produces encode the value, with no leading zero and no spare byte |
| Crypt.DivMod | client/src/lib/crypt.ts:147-148 | a value splits into its low byte and the rest |
| Crypt.Pow256Step | client/src/lib/crypt.ts:146-149 | one more byte multiplies the bound by 256 |
| Crypt.Reverse | client/src/lib/crypt.ts:150 | `reverse` keeps the length and mirrors the positions |
| Crypt.ReverseSnoc | client/src/lib/crypt.ts:147-150 | reversing after a push puts the pushed byte first |
| Crypt.BigintToUint8Array | client/src/lib/crypt.ts:141-162 | zero gives `length` zeros (one without a length); a positive value gives its minimal big-endian bytes, left-padded to the length, or the "too large" error when they do not fit |
| Crypt.ZeroFilled | client/src/lib/crypt.ts:142 | `new Uint8Array(n).fill(0)` is `n` zeros |
| Crypt.LowBytesFirst | client/src/lib/crypt.ts:144-149 | the push loop collects the bytes least significant first, so reversed they are the minimal big-endian encoding |
| Crypt.BigintToBytes | client/src/lib/crypt.ts:141-162 | zero gives `length` zero bytes (one without a length), a longer encoding than `length` throws; meaning given by `Crypt.BigintToBytesFixedLength` and `Crypt.BigintToBytesMinimal` |
| Crypt.BigintToBytesFixedLength | client/src/lib/crypt.ts:152-159 | with a length, the conversion succeeds exactly when the value is below `256^length`, and then yields exactly `length` bytes of that value |
| Crypt.BigintToBytesMinimal | client/src/lib/crypt.ts:141-162 | without a length, zero is one zero byte, a positive value its minimal encoding, and the value is kept |
| Crypt.Pow256Mono | client/src/lib/crypt.ts:152-154 | the bound grows with the length |
| Crypt.SrpCheckM2 | client/src/lib/crypt.ts:164-172 | `SRP_CheckM2` is true exactly when the expected proof's bytes and the received bytes, both left-padded to the group's byte length, are equal |
| Crypt.SrpCheckM2Meaning | client/src/lib/crypt.ts:164-172 | for proofs that fit the byte length, `SRP_CheckM2` accepts exactly the received bytes whose value is the expected proof |
| Crypt.MinimalBEFits | client/src/lib/crypt.ts:169 | a value below `256^n` has a minimal encoding of at most `n` bytes |
| Crypt.PaddedEqualIff | client/src/lib/crypt.ts:169-171 | two byte strings no longer than `n` pad to equal buffers exactly when their values are equal |
| Crypt.Encrypt | client/src/lib/crypt.ts:82-97 | the result is the 12-byte nonce followed by the ciphertext |
| Crypt.Decrypt | client/src/lib/crypt.ts:99-115 | the first 12 bytes (all of a shorter buffer) are the nonce and the rest the ciphertext, opened under the key; meaning given by `Crypt.DecryptInvertsEncrypt`: a sealed payload opens to itself |
| Crypt.DecryptInvertsEncrypt | client/src/lib/crypt.ts:82-115 | decrypting what `encrypt` produced under the same key gives back the payload |
| EventCodec.ToRawAll | client/src/lib/calendar/crypt.ts:17 | each event's JSON shape, position by position |
| EventCodec.CookEvent | client/src/lib/calendar/crypt.ts:77-82 | `cookEvent` keeps every field except `start` and `end`, which it parses from ISO text |
| EventCodec.CookAll | client/src/lib/calendar/crypt.ts:74 | `rawEvents.map(cookEvent)`, position by position |
| EventCodec.CookInvertsToRaw | client/src/lib/calendar/crypt.ts:74-82 | cooking the JSON shape of events gives back the events |
| EventCodec.EncryptEvent | client/src/lib/calendar/crypt.ts:48-59 | each wire record keeps the event's id and carries its timestamp as `updatedAt` |
| EventCodec.EncryptEvents | client/src/lib/calendar/crypt.ts:43-61 | one record per event, in order, each with its own nonce, id and version stamp |
| EventCodec.DecryptEvent | client/src/lib/calendar/crypt.ts:27-39 | a decrypted record keeps the wire id and `updatedAt` |
| EventCodec.DecryptEvents | client/src/lib/calendar/crypt.ts:22-41 | `Promise.all` resolves exactly when every record decrypts, and then yields each record's decryption in order |
| EventCodec.DecryptInvertsEncryptEvent | client/src/lib/calendar/crypt.ts:22-61 | a record `encryptEvents` produced decrypts to its own event, id and stamp |
| EventCodec.DecryptEventsInvertsEncryptEvents | client/src/lib/calendar/crypt.ts:22-61 | `decryptEvents` after `encryptEvents` returns every event with its id and stamp |
| EventCodec.EncryptOfflineEvents | client/src/lib/calendar/crypt.ts:13-20 | the list's JSON, UTF-8 encoded, gzip-compressed and encrypted; meaning given by `EventCodec.DecryptOfflineInvertsEncrypt` |
| EventCodec.DecryptOfflineEvents | client/src/lib/calendar/crypt.ts:63-75 | decrypt, decompress, decode and parse, then cook each event, any stage failing rejects; meaning given by `EventCodec.DecryptOfflineInvertsEncrypt` |
| EventCodec.DecryptOfflineInvertsEncrypt | client/src/lib/calendar/crypt.ts:13-75 | the offline collection read back after being compressed and encrypted is the same list of events |
| CalendarHandlers.EventTable.constructor | server/handlers/calendar.go:38-45 | the table starts with the given rows and no transaction begun |
| CalendarHandlers.DeleteIdsConcat | server/handlers/calendar.go:51-55 | the delete list of a concatenated batch is the concatenation of the two lists, so it keeps the request order |
| CalendarHandlers.UpsertsConcat | server/handlers/calendar.go:56-68 | the upsert list of a concatenated batch is the concatenation of the two lists, so it keeps the request order |
| CalendarHandlers.SplitOne | server/handlers/calendar.go:51-69 | a `deleted` change contributes its id to the delete list only; an `added`/`updated` change with valid base64 contributes its decoded row to the upsert list only; invalid base64 and any other type contribute nothing |
| CalendarHandlers.DeleteOwned | server/handlers/calendar.go:72-84 | the batch delete removes exactly the rows that belong to the caller and whose id is listed; every other row is kept unchanged |
| CalendarHandlers.SplitChanges | server/handlers/calendar.go:47-69 | the loop builds exactly the delete list and the upsert list of the batch, in request order |
| CalendarHandlers.SplitStep | server/handlers/calendar.go:51-69 | one loop iteration appends the change's contribution to each list |
| CalendarHandlers.UpsertEach | server/handlers/calendar.go:86-109 | the upsert as issued applies the prepared rows one after another, in order: a new id becomes the caller's row, and a duplicate id takes the new data and stamp whoever owns it, keeping its owner |
| CalendarHandlers.SaveCalendarEvents | server/handlers/calendar.go:17-126 | an empty batch opens no transaction, changes no row and sends no push; otherwise one transaction commits all deletes and then all upserts as the statement issues them, with no owner check on a duplicate id, and the sync push goes out exactly when the `c` parameter is six characters long |
| CalendarHandlers.UpsertRowAsWritten | server/handlers/calendar.go:96-102 | one row of the issued upsert: a new id gets a row of the caller's, a duplicate id gets new data and stamp and keeps its owner; meaning given by `CalendarHandlers.CrossOwnerOverwriteGeneral` |
| CalendarHandlers.UpsertAllAsWritten | server/handlers/calendar.go:86-109 | the issued multi-row upsert, row after row in order; meaning given by `CalendarHandlers.UpsertAllAsWrittenFrame` and `UpsertAllAsWrittenLast`, and `CalendarHandlers.UpsertEach` computes it |
| CalendarHandlers.Committed | server/handlers/calendar.go:71-109 | the table after the save as issued: the caller's deletes, then the upserts; meaning given by `CalendarHandlers.SaveOtherOwnersAsWritten` and `DeleteThenUpsert`, and `CalendarHandlers.SaveCalendarEvents` commits it |
| CalendarHandlers.UpsertAllAsWrittenFrame | server/handlers/calendar.go:96-102 | the issued upsert removes no row and changes no row's owner; a row it adds is the caller's and has an upserted id; a row no upsert names keeps its data and stamp |
| CalendarHandlers.UpsertAllAsWrittenLast | server/handlers/calendar.go:91-102 | with the issued upsert, the last upsert for an id decides that row's data and stamp; the row keeps its owner if it existed and is the caller's otherwise |
| CalendarHandlers.SaveOtherOwnersAsWritten | server/handlers/calendar.go:71-109 | a save as issued keeps every row of another owner with its owner, changes such a row only when an upsert of the batch names its id, and creates no row for another owner |
| CalendarHandlers.UpsertRow | server/handlers/calendar.go:96-102 | (the corrected behaviour) one row of an owner-guarded upsert, which leaves another owner's row alone; meaning given by `CalendarHandlers.UpsertAllKeepsOthers` |
| CalendarHandlers.UpsertAll | server/handlers/calendar.go:86-109 | (the corrected behaviour) the owner-guarded upsert, row after row; meaning given by `CalendarHandlers.UpsertAllKeepsOthers`, `UpsertAllLast` and `UpsertAllAgrees` |
| CalendarHandlers.CommittedGuarded | server/handlers/calendar.go:71-109 | (the corrected behaviour) the save with the owner-guarded upsert; meaning given by `CalendarHandlers.SaveKeepsOtherOwners` |
| CalendarHandlers.UpsertAllKeepsOthers | server/handlers/calendar.go:96-102 | (the corrected behaviour) with the ownership guard, no row of another owner is created, changed or removed by the upsert |
| CalendarHandlers.SaveKeepsOtherOwners | server/handlers/calendar.go:96-102 | (the corrected behaviour) with the owner-guarded upsert of `CommittedGuarded`, a save leaves every row of another owner exactly as it was and creates none |
| CalendarHandlers.UpsertAllAgrees | server/handlers/calendar.go:96-102 | when no upserted id belongs to another owner, the corrected upsert and the statement as issued give the same table |
| CalendarHandlers.UpsertAllLast | server/handlers/calendar.go:91-102 | (the corrected behaviour) with the guarded upsert, the last upsert for an id decides its row, provided the id is free or already the caller's |
| CalendarHandlers.DeleteThenUpsert | server/handlers/calendar.go:71-109 | deletes run before upserts, so an id both deleted and upserted in one batch ends with the data and stamp of its last upsert; the row is the caller's, unless another owner held that id, who then keeps it with the caller's data |
| CalendarHandlers.CrossOwnerOverwrite | server/handlers/calendar.go:96-102 | with the statement as issued, a row of `alice` becomes `mallory`'s data when `mallory` upserts the same id |
| CalendarHandlers.CrossOwnerOverwriteGeneral | server/handlers/calendar.go:96-102 | the issued statement replaces the data of any colliding foreign row while keeping its owner; the guarded upsert leaves the table unchanged |
| CalendarHandlers.CheckpointIds | server/handlers/calendar.go:140-149 | after the conversion loop each checkpoint id is its decoded UUID, or the raw string when decoding failed |
| CalendarHandlers.ConvertCheckpoint | server/handlers/calendar.go:138-149 | the loop builds the id-to-stamp map from the decodable ids, a later entry winning, and rewrites exactly those entries of the array in place |
| CalendarHandlers.Converted | server/handlers/calendar.go:140-149 | the partially converted array keeps its length |
| CalendarHandlers.ConvertedStep | server/handlers/calendar.go:141-147 | one iteration rewrites only entry `i`, and leaves it alone when its id does not decode |
| CalendarHandlers.IdToMillisStep | server/handlers/calendar.go:141-148 | one iteration adds the entry's stamp under its decoded id, or nothing when decoding fails |
| CalendarHandlers.ClassifyRows | server/handlers/calendar.go:175-197 | the row loop records every row id and sorts rows into the updated and added lists, in row order |
| CalendarHandlers.CollectDeleted | server/handlers/calendar.go:199-205 | the checkpoint loop collects, in order, the ids no row has |
| CalendarHandlers.SyncCalendarEvents | server/handlers/calendar.go:128-215 | the response is exactly the diff of the owner's rows against the converted checkpoint |
| CalendarHandlers.RowIdsMembers | server/handlers/calendar.go:180-181 | `seenIDs` holds exactly the ids of the returned rows |
| CalendarHandlers.UpdatedRowsMembers | server/handlers/calendar.go:182-189 | `updated` holds exactly the wire forms of the rows whose id is in the checkpoint with an older stamp |
| CalendarHandlers.AddedRowsMembers | server/handlers/calendar.go:190-196 | `added` holds exactly the wire forms of the rows whose id the checkpoint lacks |
| CalendarHandlers.DeletedIdsMembers | server/handlers/calendar.go:199-205 | `deleted` holds exactly the checkpoint ids that no row has |
| CalendarHandlers.IdToMillis | server/handlers/calendar.go:138-149 | the id-to-stamp map of the decodable checkpoint ids, a later entry winning; meaning given by `CalendarHandlers.IdToMillisKeys` and `IdToMillisLast`, and `CalendarHandlers.ConvertCheckpoint` computes it |
| CalendarHandlers.IdToMillisKeys | server/handlers/calendar.go:138-149 | the map's keys are exactly the ids that decode |
| CalendarHandlers.IdToMillisLast | server/handlers/calendar.go:148 | the stamp kept for an id is that of the last entry decoding to it |
| CalendarHandlers.UpdatedRows | server/handlers/calendar.go:180-189 | the rows with a checkpoint entry and a newer stamp, in table order; meaning given by `CalendarHandlers.UpdatedRowsMembers` |
| CalendarHandlers.AddedRows | server/handlers/calendar.go:190-196 | the rows with no checkpoint entry, in table order; meaning given by `CalendarHandlers.AddedRowsMembers` |
| CalendarHandlers.DeletedIds | server/handlers/calendar.go:199-205 | the checkpoint ids no row has, in checkpoint order; meaning given by `CalendarHandlers.DeletedIdsMembers` |
| CalendarHandlers.SyncResponse | server/handlers/calendar.go:175-214 | the response the handler sends: updated, deleted and added; meaning given by `CalendarHandlers.SyncClassification` and `UndecodableIdEchoed`, and `CalendarHandlers.SyncCalendarEvents` computes it |
| CalendarHandlers.SyncClassification | server/handlers/calendar.go:175-205 | each row lands in at most one of `updated`/`added`; `updated` is the checkpointed rows strictly newer than their stamp, `added` the rows not checkpointed, rows not newer are in neither, and `deleted` is exactly the checkpoint ids no row has |
| CalendarHandlers.UndecodableIdEchoed | server/handlers/calendar.go:141-145 | a checkpoint id that fails to decode is kept raw and reported deleted when no row has it |
| EventsHook.Checkpoint | client/src/hooks/calendar/useCalendarEvents.ts:49-56 | the checkpoint has one `{id, ts}` per cached event, in order: the id converted by `uuidToBase64`, the event's timestamp as `ts` |
| EventsHook.ById | client/src/hooks/calendar/useCalendarEvents.ts:67 | the map is built from `[x.id, x]` pairs in list order; the same function keys the cached events here and the encrypted events of the save payload (line 141) |
| EventsHook.DataById | client/src/hooks/calendar/useCalendarEvents.ts:78-83 | each decrypted record becomes the pair `[ev.id, ev.data]`, in order |
| EventsHook.MergedMap | client/src/hooks/calendar/useCalendarEvents.ts:66-84 | the merged cache map keeps distinct keys matching its domain |
| EventsHook.MergeDiffMap | client/src/hooks/calendar/useCalendarEvents.ts:66-83 | the cache map with the deleted ids removed and the decrypted updated and added events set, in that order; meaning given by `EventsHook.MergedMapGet` and `SyncConvergence.SyncConverges` |
| EventsHook.MergeDiff | client/src/hooks/calendar/useCalendarEvents.ts:73-97 | the merge fails exactly when a diff record fails to decrypt; otherwise its result is the merged map's values in insertion order |
| EventsHook.MergedMapGet | client/src/hooks/calendar/useCalendarEvents.ts:66-85 | per id, an `added` record wins over an `updated` one, either wins over a deletion, and a cached event the diff does not name keeps its value |
| EventsHook.ToEncryptMembers | client/src/hooks/calendar/useCalendarEvents.ts:135-137 | the events encrypted are exactly those of the changes that are not deletions |
| EventsHook.OfflineBlob | client/src/hooks/calendar/useCalendarEvents.ts:195-200 | what the offline branch of `saveEvents` stores: `encryptOfflineEvents` of the batch as it is passed, an event list or a change list; meaning given by `CalendarView.OfflineEditKeepsEvents` and `CalendarView.OfflineEditAsWrittenLosesEvents` |
| EventsHook.Payload | client/src/hooks/calendar/useCalendarEvents.ts:144-150 | the payload has one entry per change |
| EventsHook.ApplyChanges | client/src/hooks/calendar/useCalendarEvents.ts:175-179 | re-applying the saved changes keeps the map well formed |
| EventsHook.PayloadEntries | client/src/hooks/calendar/useCalendarEvents.ts:133-150 | a deletion's entry is `{type: "deleted", id}`; any other entry keeps the change's type and carries a record with the event's id and stamp that decrypts back to the event |
| EventsHook.EncryptedLookup | client/src/hooks/calendar/useCalendarEvents.ts:138-147 | when event ids are distinct, looking up an event's id in the encrypted map finds that event's own record |
| EventsHook.LastChangeNone | client/src/hooks/calendar/useCalendarEvents.ts:176-179 | no last change exists for an id exactly when no change names it |
| EventsHook.ApplyChangesGet | client/src/hooks/calendar/useCalendarEvents.ts:175-179 | after re-applying the changes, the last change naming an id decides its entry (deleted or set to its event) and every other id keeps its value |
| EventsHook.CalendarEventsHook.constructor | client/src/hooks/calendar/useCalendarEvents.ts:21-27 | the hook starts with the given storage, user and key, not saving and with no callback run |
| EventsHook.CalendarEventsHook.DeleteIds | client/src/hooks/calendar/useCalendarEvents.ts:68-70 | the delete loop removes every id the server reports deleted |
| EventsHook.CalendarEventsHook.SetDecrypted | client/src/hooks/calendar/useCalendarEvents.ts:78-83 | each set loop stores every decrypted record under its id, in order |
| EventsHook.CalendarEventsHook.SyncEvents | client/src/hooks/calendar/useCalendarEvents.ts:29-100 | without storage the result is empty; an offline user is refused; a failed server reply is an error; a diff record that fails to decrypt gives an empty list and keeps the store; otherwise the result is the merged events and the cache is re-stored encrypted |
| EventsHook.CalendarEventsHook.LoadEvents | client/src/hooks/calendar/useCalendarEvents.ts:102-121 | an online user gets the outcome of sync; an offline user gets the decrypted local collection, or an empty list when it is absent or fails to decrypt |
| EventsHook.CalendarEventsHook.SaveEvents | client/src/hooks/calendar/useCalendarEvents.ts:123-211 | an empty batch does nothing; a missing storage or key leaves `saving` set; an offline user's batch is stored whole as the local collection; an online user's changes are posted as the payload and, on success, re-applied to the decrypted cache, which is re-stored before the callback runs |
| EventsHook.CalendarEventsHook.MergeChanges | client/src/hooks/calendar/useCalendarEvents.ts:175-179 | the merge loop deletes or sets each change's id in order |
| SyncConvergence.CheckpointOnServer | server/handlers/calendar.go:138-149 | when ids round-trip through the base64 form, the server's id-to-stamp map has exactly the cached ids as keys, each with its cached timestamp |
| SyncConvergence.CachedInCheckpoint | server/handlers/calendar.go:140-149 | each cached event reaches the server's map under its own id and stamp |
| SyncConvergence.DiffLookupRow | client/src/hooks/calendar/useCalendarEvents.ts:74-83 | a row the server selected decrypts, and the decrypted list maps its id to that row's event |
| SyncConvergence.DiffLookupKey | client/src/hooks/calendar/useCalendarEvents.ts:74-83 | any id the decrypted diff names belongs to a row the server selected |
| SyncConvergence.UpdatedFacts | server/handlers/calendar.go:182-189 | the diff's `updated` list is the wire form of exactly the rows newer than their checkpoint stamp |
| SyncConvergence.AddedFacts | server/handlers/calendar.go:190-196 | the diff's `added` list is the wire form of exactly the rows the checkpoint lacks |
| SyncConvergence.CheckpointIdsOf | server/handlers/calendar.go:141-147 | on the server the checkpoint ids convert back to the cached ids, position by position |
| SyncConvergence.DeletedFacts | server/handlers/calendar.go:199-205 | the diff's `deleted` list is exactly the cached ids that no row has |
| SyncConvergence.SyncKeysFromServer | client/src/hooks/calendar/useCalendarEvents.ts:64-85 | the merged cache has no id that the server lacks |
| SyncConvergence.MergedKeyCases | client/src/hooks/calendar/useCalendarEvents.ts:66-84 | an id of the merged map comes from `added`, from `updated`, or is a cached id that was not deleted |
| SyncConvergence.CachedKeptHasRow | server/handlers/calendar.go:199-205 | a cached id the diff does not delete is the id of some row |
| SyncConvergence.SyncKeepsCached | client/src/hooks/calendar/useCalendarEvents.ts:29-100 | a cached event whose row is not strictly newer survives the merge unchanged |
| SyncConvergence.CachedNotAdded | server/handlers/calendar.go:190-196 | a cached id never appears in `added` |
| SyncConvergence.CachedNotUpdated | server/handlers/calendar.go:182-189 | a cached id whose row is not strictly newer never appears in `updated` |
| SyncConvergence.CachedLookup | client/src/hooks/calendar/useCalendarEvents.ts:67 | with distinct ids, the cache map finds each cached event under its id |
| SyncConvergence.SyncTakesServer | client/src/hooks/calendar/useCalendarEvents.ts:29-100 | a row that is new to the client or strictly newer than its cached copy decrypts, and the merged cache holds the server's copy |
| SyncConvergence.SyncConverges | client/src/hooks/calendar/useCalendarEvents.ts:29-100 | after one sync the merged cache has exactly the server's ids; each id holds the newer of the cached and the stored copy, and the cached copy wins a tie |
| CalendarView.DragTimes | client/src/components/calendar/Calendar.tsx:244-279 | the new start and end of a move, a start resize and an end resize; meaning given by `CalendarView.DragTimesProps` |
| CalendarView.DragTimesProps | client/src/components/calendar/Calendar.tsx:244-279 | a move shifts both ends by the same amount and keeps the duration; a resize moves one end only, always leaves start before end, and clamps to five minutes when the dragged end crosses the other |
| CalendarView.NewEvent | client/src/components/calendar/Calendar.tsx:172-188 | the event a click on a cell creates; meaning given by `CalendarView.NewEventProps`: start snapped down to 5 minutes, one hour long, titled "new event" |
| CalendarView.NewEventProps | client/src/components/calendar/Calendar.tsx:172-188 | a cell-created event starts on a five-minute boundary at or just before the pointer, lasts sixty minutes, is titled "new event" and has no description or color |
| CalendarView.CoalesceLastWins | client/src/components/calendar/Calendar.tsx:147-149 | two changes for the same key leave only the later one, at the position of the first, whatever their kinds; other keys are untouched |
| CalendarView.AddThenDeleteCoalesces | client/src/components/calendar/Calendar.tsx:147-149 | a delete after an unflushed add of the same event leaves one `deleted` entry at the end of the map, not nothing |
| CalendarView.EventsOn | client/src/components/calendar/Calendar.tsx:444-458 | the events, in list order, whose start-to-end days include a day; meaning given by `CalendarView.EventsOnCount` |
| CalendarView.DayMap | client/src/components/calendar/Calendar.tsx:440-462 | the intended `eventMap`: each visible day that has events, mapped to them; meaning given by `CalendarView.EventMapMeaning` and `EventMapAbsent`, and `CalendarView.EventMap` computes it |
| CalendarView.EventsOnCount | client/src/components/calendar/Calendar.tsx:440-462 | an event is listed under a day as often as it is in the calendar when it spans the day, and not at all otherwise |
| CalendarView.EventMapMeaning | client/src/components/calendar/Calendar.tsx:440-462 | every visible day an event spans has a list that contains the event |
| CalendarView.EventMapAbsent | client/src/components/calendar/Calendar.tsx:440-462 | a day that is not visible, or that no event spans, has no list |
| CalendarView.DayMapStep | client/src/components/calendar/Calendar.tsx:444-459 | handling one more event appends it to each visible day it spans and leaves other days as they were |
| CalendarView.PushOnDays | client/src/components/calendar/Calendar.tsx:445-458 | the inner loop appends the event to every visible day from its start day to its end day and to no other day |
| CalendarView.EventMap | client/src/components/calendar/Calendar.tsx:440-462 | the map sends each visible day that has events to exactly the events spanning it, in calendar order |
| CalendarView.Calendar.constructor | client/src/components/calendar/Calendar.tsx:116-128 | the view starts with the given events, an empty change map, no drag and no save |
| CalendarView.Calendar.UpdateChange | client/src/components/calendar/Calendar.tsx:147-149 | a change is stored under its event's id, or its own id when it has no event, replacing any earlier change for that key |
| CalendarView.Calendar.SaveIfChanged | client/src/components/calendar/Calendar.tsx:151-156 | with pending changes, one save receives all of them in insertion order and the map is emptied; with none, nothing happens |
| CalendarView.Calendar.SaveAfterEdit | client/src/components/calendar/Calendar.tsx:323-325 | online, the pending changes are flushed; offline, every event is saved and the map is kept |
| CalendarView.Calendar.CellPointerDown | client/src/components/calendar/Calendar.tsx:160-218 | only a left click on a day column creates an event: it is added to the list, recorded as an added change, and a resize-end drag starts with both original ends at its start |
| CalendarView.Calendar.PointerDown | client/src/components/calendar/Calendar.tsx:334-365 | a press on an event block starts a drag of the given kind, keeping the event's original start and end |
| CalendarView.Calendar.NewTimes | client/src/components/calendar/Calendar.tsx:248-279 | the loop computes the start and end the drag arithmetic gives |
| CalendarView.Calendar.PointerMove | client/src/components/calendar/Calendar.tsx:220-314 | a move of another pointer, or one outside the day columns, changes nothing; otherwise, when the times change, the event's times are updated in the list and an updated change with the new times and a fresh stamp is recorded |
| CalendarView.Calendar.PointerUp | client/src/components/calendar/Calendar.tsx:316-332 | releasing the dragging pointer ends the drag; online users flush their pending changes, offline users save every event; another pointer changes nothing |
| CalendarView.Calendar.EventEdit | client/src/components/calendar/Calendar.tsx:367-381 | an edit spreads the event over the list entry and records an updated change; online the changes are flushed, offline every event is saved (the corrected behaviour) |
| CalendarView.Calendar.EventEditAsWritten | client/src/components/calendar/Calendar.tsx:367-381 | as written, an edit always flushes the change map, whether or not the user is online |
| CalendarView.Calendar.EventDelete | client/src/components/calendar/Calendar.tsx:533-545 | a delete removes the id from the list and records a deleted change; online the changes are flushed, offline every event is saved (the corrected behaviour) |
| CalendarView.Calendar.EventDeleteAsWritten | client/src/components/calendar/Calendar.tsx:533-545 | as written, a delete always flushes the change map, whether or not the user is online |
| CalendarView.OfflineEditAsWrittenLosesEvents | client/src/components/calendar/Calendar.tsx:367-381 | two offline calendars with the same pending changes, still different after the same edit, hand the same change list `ChangeList(pending.Values())` to `saveEvents`; both hooks then store the same `offlineEvents` blob, which decrypts to at most one of the two calendars |
| CalendarView.OfflineEditKeepsEvents | client/src/hooks/calendar/useCalendarEvents.ts:195-200 | when every event is saved offline, the stored blob decrypts to the calendar as it now is |
| CalendarView.OfflineEditKeepsCalendar | client/src/hooks/calendar/useCalendarEvents.ts:195-204 | with the corrected edit, an offline user's save stores every event, and the stored blob decrypts to the calendar as it now is |
| Sorting.InsertBy | client/src/lib/calendar/event.ts:32 | inserting one element adds exactly that element to the multiset and one to the length |
| Sorting.InsertSorted | client/src/lib/calendar/event.ts:32 | inserting into a list sorted by start keeps it sorted |
| Sorting.KeysBelow | client/src/lib/calendar/event.ts:32 | inserting an element below a bound into elements below it keeps all of them below it |
| Sorting.SortedSnoc | client/src/lib/calendar/event.ts:32 | appending an element no smaller than the rest keeps the list sorted |
| Sorting.SortBy | client/src/lib/calendar/event.ts:16-32 | the sorted list is ordered by start and is a permutation of the input |
| Sorting.SortedSameElements | client/src/lib/calendar/event.ts:16-32 | sorting keeps exactly the elements of the input |
| DayLayout.SlotOf | client/src/lib/calendar/event.ts:18-30 | a positioned event keeps the id, start and end; its top is its offset into the day, never negative, and its height its duration |
| DayLayout.Slots | client/src/lib/calendar/event.ts:16-31 | one positioned entry per event, in order |
| DayLayout.FirstOverlapping | client/src/lib/calendar/event.ts:62-67 | the group found is the first whose members include an event that the new event strictly overlaps; all earlier groups have none |
| DayLayout.GroupsOf | client/src/lib/calendar/event.ts:58-70 | the groups hold positions of events only |
| DayLayout.GroupsPartition | client/src/lib/calendar/event.ts:58-70 | the overlap groups are non-empty, list positions in increasing order, and put every event in exactly one group |
| DayLayout.AddedPartition | client/src/lib/calendar/event.ts:62-69 | joining a group or opening a new one keeps the groups a partition of the events seen so far |
| DayLayout.AddedCovers | client/src/lib/calendar/event.ts:62-69 | after one step every event seen so far is in some group |
| DayLayout.AddedUnique | client/src/lib/calendar/event.ts:62-69 | after one step no event is in two groups |
| DayLayout.FirstFit | client/src/lib/calendar/event.ts:77-85 | the column search returns the first column whose last event ends by the new start, or the column count when none does |
| DayLayout.PlaceInExistingLasts | client/src/lib/calendar/event.ts:78-84 | appending to a column keeps each column's last event recorded |
| DayLayout.PlaceInExistingApart | client/src/lib/calendar/event.ts:78-84 | an event appended to the first column it fits starts no earlier than every earlier member of that column ends |
| DayLayout.PlaceInExisting | client/src/lib/calendar/event.ts:78-84 | appending to the first fitting column keeps the column pass's invariant |
| DayLayout.PlaceInNewLasts | client/src/lib/calendar/event.ts:86-89 | opening a column records the new event as its last |
| DayLayout.PlaceInNewApart | client/src/lib/calendar/event.ts:86-89 | a new column shares no earlier event |
| DayLayout.PlaceInNew | client/src/lib/calendar/event.ts:86-89 | opening a new column keeps the column pass's invariant |
| DayLayout.PlaceColumns | client/src/lib/calendar/event.ts:34-55 | the greedy pass gives every event of the list a column below the column count, uses every such column, never puts two overlapping events in one column, and leaves other positions alone |
| DayLayout.PlaceStep | client/src/lib/calendar/event.ts:75-90 | placing the next event in the first fitting column or a new one keeps the invariant |
| DayLayout.UntouchedStep | client/src/lib/calendar/event.ts:81 | placing a member changes only that member's column |
| DayLayout.PlaceInvColumnsOk | client/src/lib/calendar/event.ts:75-90 | after the last member, the invariant gives the column pass's promise |
| DayLayout.FindGroup | client/src/lib/calendar/event.ts:62-68 | the group loop finds the first group that has an overlapping member |
| DayLayout.OverlapGroups | client/src/lib/calendar/event.ts:58-70 | the grouping pass builds exactly the overlap groups |
| DayLayout.GroupPlacedFrame | client/src/lib/calendar/event.ts:73-94 | a group's layout depends only on its own members' entries |
| DayLayout.SetMaxCols | client/src/lib/calendar/event.ts:92-93 | every member of the group gets the group's column count; no other entry changes |
| DayLayout.IncreasingMembers | client/src/lib/calendar/event.ts:73-75 | a group's members are distinct and, listed in order, in ascending start order |
| DayLayout.GroupColumns | client/src/lib/calendar/event.ts:72-94 | after the group pass, every group's columns are sound and each member's `maxCols` is its group's column count |
| DayLayout.Layout | client/src/lib/calendar/event.ts:34-94 | over the sorted events, the groups partition the events, every group is laid out soundly, and each event's column is below its `maxCols` |
| DayLayout.StyleInside | client/src/lib/calendar/event.ts:99-105 | a style has positive width and lies inside the day column: `left` is at least 0 and `left + width` at most 100 |
| DayLayout.StylesOfEntries | client/src/lib/calendar/event.ts:97-106 | the styles record has exactly one entry per event id |
| DayLayout.StylesOfEntry | client/src/lib/calendar/event.ts:98-106 | an id's entry is the style of the last event with that id |
| DayLayout.BuildStyles | client/src/lib/calendar/event.ts:96-108 | the final loop writes every event's style under its id, in list order |
| DayLayout.StyleOfFits | client/src/lib/calendar/event.ts:99-105 | the style of an event's entry comes from the event, has a non-negative top and lies inside the column |
| DayLayout.StylesOfFit | client/src/lib/calendar/event.ts:96-108 | every entry of the styles record fits its event |
| DayLayout.GetDayEventStyles | client/src/lib/calendar/event.ts:8-109 | the result has one style per event id; each comes from an event with that id, sits at its non-negative offset into the day with its duration as height, and lies inside the day column |
| DayLayout.SlotsFromEvents | client/src/lib/calendar/event.ts:16-32 | each sorted entry is the entry of some event |
| DayLayout.SlotsIds | client/src/lib/calendar/event.ts:16-32 | the sorted entries carry exactly the events' ids |
| DayLayout.SameSlotsSameIds | client/src/lib/calendar/event.ts:16-32 | entries with the same elements as the events' entries carry the events' ids |
| Dates.StartOfDayBounds | client/src/lib/calendar/date.ts:6 | the start of the day is at or before the time, less than a day earlier, on a day boundary, and starting the day again changes nothing |
| Dates.DivUnique | client/src/lib/calendar/date.ts:42-43 | floor division is determined by its quotient and remainder |
| Dates.MulMono | client/src/lib/calendar/date.ts:42-43 | a positive multiple of the step is at least the step |
| Dates.SnapMinutes | client/src/lib/calendar/date.ts:42-43 | `Math.floor(mins / snap) * snap`, with a zero step giving `NaN`; meaning given by `Dates.SnapMinutesProps`: the largest multiple of a positive step not above `mins`, and idempotent |
| Dates.SnapMinutesProps | client/src/lib/calendar/date.ts:42-43 | for a positive step the result is the largest multiple of the step not above the input, and snapping again changes nothing |
| Dates.GetDay | client/src/lib/calendar/date.ts:5-7 | the day view's one day, at its start; meaning given by `Dates.GetDayIsStartOfDay` |
| Dates.GetDayIsStartOfDay | client/src/lib/calendar/date.ts:5-7 | the day view has exactly one day: the start of the given day |
| Dates.GetWeekDays | client/src/lib/calendar/date.ts:9-15 | seven day starts from the start of the week; meaning given by `Dates.WeekDaysProps`: consecutive days from a Monday that include the given day |
| Dates.WeekDaysProps | client/src/lib/calendar/date.ts:9-15 | the week view is seven consecutive day starts from a Monday, and one of them is the given day |
| Dates.GetMonthCells | client/src/lib/calendar/date.ts:17-23 | 42 cells from the week of the first of the month, days of other months empty; meaning given by `Dates.MonthCellsProps` |
| Dates.MonthCellsProps | client/src/lib/calendar/date.ts:17-23 | the month grid has 42 cells, a cell is filled exactly when its day is in the shown month, and the first of the month is in the first row |
| Dates.DateRangeString | client/src/lib/calendar/date.ts:25-40 | the header label of the month, day and week views; meaning given by `Dates.DateRangeStringCases` |
| Dates.DateRangeStringCases | client/src/lib/calendar/date.ts:25-40 | the month view shows "MMMM yyyy"; the day view shows it for the start of the day; the week view shows one "MMMM yyyy" label when Monday and Sunday share a month and two "MMM yyyy" labels otherwise |
| Agenda.NotEnded | client/src/components/calendar/AgendaList.tsx:36 | every kept event ends after now, and each event occurs in the result exactly as often as in the input when it ends after now, and not at all otherwise |
| Agenda.Upcoming | client/src/components/calendar/AgendaList.tsx:35-37 | a date's events that have not ended, sorted by start; meaning given by `Agenda.UpcomingProps` |
| Agenda.UpcomingProps | client/src/components/calendar/AgendaList.tsx:35-37 | a date's upcoming list holds exactly the date's events that have not ended, ordered by start, and is empty exactly when all of them have ended |
| Agenda.AgendaOf | client/src/components/calendar/AgendaList.tsx:32-44 | the agenda is a well-formed map whose dates all come from the event map |
| Agenda.AgendaGet | client/src/components/calendar/AgendaList.tsx:39-41 | a date has an agenda entry exactly when it is in the event map with an upcoming event, and the entry is that date's sorted upcoming list |
| Agenda.AgendaKeys | client/src/components/calendar/AgendaList.tsx:34-42 | the agenda's dates are the event map's dates that keep an upcoming event, in the event map's order |
| Agenda.AgendaStep | client/src/components/calendar/AgendaList.tsx:34-42 | one more date of the event map sets that date's upcoming list if it is non-empty and leaves the agenda as it was otherwise |
| Agenda.SortedEventMap | client/src/components/calendar/AgendaList.tsx:30-45 | the loop over the event map's entries builds exactly the agenda of its dates |
| GoStrings.LeftEnd | server/handlers/middleware.go:275 | the scan stops at the first non-space character from the given position, or at the end, and skips only white space |
| GoStrings.RightEnd | server/handlers/middleware.go:275 | the backward scan stops after the last non-space character before the given position, never before the lower bound, and skips only white space |
| GoStrings.TrimSpace | server/handlers/middleware.go:275 | the result neither starts nor ends with white space, is a slice of the input, and everything cut off on either side is white space |
| GoStrings.Split | server/handlers/user.go:67 | splitting always gives at least one piece and no piece contains the separator |
| GoStrings.FirstIndex | server/handlers/user.go:67 | the index is of the first occurrence of the separator |
| GoStrings.SplitJoin | server/handlers/user.go:67 | joining the pieces with the separator gives the input back |
| OrderedMap.OMap.Set | client/src/hooks/calendar/useCalendarEvents.ts:79 | `map.set` gives the key the new value, leaves every other key as it was, keeps the key's position if present and appends it otherwise |
| OrderedMap.OMap.Delete | client/src/hooks/calendar/useCalendarEvents.ts:69 | `map.delete` removes the key, leaves every other key as it was, and keeps the remaining keys in order |
| OrderedMap.OMap.Values | client/src/hooks/calendar/useCalendarEvents.ts:85 | `Array.from(map.values())` lists one value per key, in key order |
| OrderedMap.Empty | client/src/hooks/calendar/useCalendarEvents.ts:67 | the empty map is well formed and has no keys |
| OrderedMap.RemoveKeyProps | client/src/hooks/calendar/useCalendarEvents.ts:69 | removing a key from distinct keys keeps exactly the other keys, still distinct, and changes nothing when the key is absent |
| OrderedMap.FromEntries | client/src/hooks/calendar/useCalendarEvents.ts:67 | `new Map(entries)` is a well-formed map |
| OrderedMap.EntryKeys | client/src/hooks/calendar/useCalendarEvents.ts:67 | the keys of the entries, one per entry, in order |
| OrderedMap.EntryValues | client/src/hooks/calendar/useCalendarEvents.ts:67 | the values of the entries, one per entry, in order |
| OrderedMap.FromEntriesKeys | client/src/hooks/calendar/useCalendarEvents.ts:67 | with distinct keys, the built map iterates the entries' keys in their order |
| OrderedMap.FromEntriesDistinct | client/src/hooks/calendar/useCalendarEvents.ts:171-185 | with distinct keys, the built map's values are the entries' values in order |
| OrderedMap.FromEntriesGet | client/src/hooks/calendar/useCalendarEvents.ts:67 | a key is found exactly when some entry has it, and then it has the value of the last entry for it |
| OrderedMap.DeleteAll | client/src/hooks/calendar/useCalendarEvents.ts:68-70 | deleting a list of keys removes exactly those keys and leaves the others' values unchanged |
| OrderedMap.SetAll | client/src/hooks/calendar/useCalendarEvents.ts:77-84 | setting a list of entries in order keeps the map well formed |
| OrderedMap.LookupMembers | client/src/hooks/calendar/useCalendarEvents.ts:67 | the last-entry lookup finds a key exactly when some entry has it, and finds the value of the last entry for it |
| OrderedMap.SetAllGet | client/src/hooks/calendar/useCalendarEvents.ts:77-84 | after setting entries in order, a key has the value of its last entry if any, and its old value otherwise |
| OrderedMap.SetAllKeysPrefix | client/src/hooks/calendar/useCalendarEvents.ts:77-84 | setting entries never drops or reorders keys: the old keys stay in front, in their order |
| OrderedMap.FromEntriesLookup | client/src/hooks/calendar/useCalendarEvents.ts:67 | the map built from entries answers every key as the last-entry lookup does |
| OrderedMap.LookupFound | client/src/hooks/calendar/useCalendarEvents.ts:67 | a value the lookup finds is the value of an entry for that key |
| ClientUtils.JoinedUrl | client/src/lib/utils.ts:17-23 | the joined URL; meaning given by `ClientUtils.JoinedUrlHasScheme`, `JoinedUrlPlain` and `JoinedUrlSlashes`, and `ClientUtils.JoinUrl` computes it |
| ClientUtils.JoinUrl | client/src/lib/utils.ts:17-23 | the step-by-step reassignment of base and path builds the joined URL: scheme added when missing, one trailing and one leading slash dropped, one slash between |
| ClientUtils.PrefixKeepsScheme | client/src/lib/utils.ts:18 | a string that extends one with an http(s) scheme has the scheme too |
| ClientUtils.JoinedUrlHasScheme | client/src/lib/utils.ts:17-23 | every joined URL starts with an http or https scheme, even for an empty base or a base that is only a scheme |
| ClientUtils.JoinedUrlPlain | client/src/lib/utils.ts:17-23 | a schemed base without a trailing slash and a path without a leading slash are joined by exactly one slash |
| ClientUtils.JoinedUrlSlashes | client/src/lib/utils.ts:19-20 | one trailing slash on the base and one leading slash on the path are each dropped once |
| ClientUtils.Clamp | client/src/lib/utils.ts:84-86 | the result is within the bounds when they are ordered, is the value when it is already inside, the nearest bound otherwise, and the lower bound when the bounds are crossed |
| ClientUtils.ArrayBufferToBase64 | client/src/lib/utils.ts:62-71 | the char-per-byte loop builds the binary string of the bytes, and `btoa` of it is the Base64 text of the bytes |
| ClientUtils.Uint8ArrayFromBase64 | client/src/lib/utils.ts:73-82 | `atob` followed by the byte-per-char loop gives the decoded bytes, and fails exactly when `atob` throws |
| ClientUtils.Base64HelpersRoundTrip | client/src/lib/utils.ts:62-82 | decoding what the encoder produces gives back the binary string and the original bytes |
| ClientUtils.RunLength | client/src/lib/utils.ts:42 | the length of the leading run of decimal digits: all digits before it, none at it |
| ClientUtils.DigitRuns | client/src/lib/utils.ts:42 | every match of `/\d+/g` is a non-empty run of decimal digits; `DigitRunsWeave` and `DigitRunsUnique` pin the list down exactly |
| ClientUtils.DigitRunsWeave | client/src/lib/utils.ts:42 | every string is its digit runs interleaved with digit-free stretches, each stretch between two runs non-empty, so the runs are maximal and in order |
| ClientUtils.DigitRunsUnique | client/src/lib/utils.ts:42 | any split of a string into digit runs interleaved with digit-free stretches, non-empty between runs, gives exactly the runs `DigitRuns` returns |
| ClientUtils.ParseIntHex | client/src/lib/utils.ts:31-37 | `parseInt(s, 16)`: leading white space, a sign and a `0x` prefix are skipped, then the longest hex prefix is read, `NaN` when empty; meaning given by `ClientUtils.HexPairValue` and `SpacedHexChannel` |
| ClientUtils.ParseColor | client/src/lib/utils.ts:26-49 | the three channels `isColorDark` reads from a `#rgb`, `#rrggbb` or `rgb(...)` colour, or none where it returns early; meaning given by `ClientUtils.HexColorDark`, `RgbColorDark` and `ShortHexDoubles` |
| ClientUtils.Luminance | client/src/lib/utils.ts:51 | the weighted sum `0.2126 r + 0.7152 g + 0.0722 b`, in exact reals; used by `ClientUtils.IsColorDark` |
| ClientUtils.IsColorDark | client/src/lib/utils.ts:25-53 | a colour is dark only when it parses; colours that start with neither `#` nor `rgb`, hex colours of a length other than 3 or 6, and `rgb` colours with fewer than three numbers are never dark |
| ClientUtils.ShortHexDoubles | client/src/lib/utils.ts:30-37 | a three-digit hex colour reads as the six-digit colour with each digit doubled |
| ClientUtils.HexPairValue | client/src/lib/utils.ts:35-37 | a two-digit hex channel has the value of its two hex digits |
| ClientUtils.SpacedHexChannel | client/src/lib/utils.ts:31-37 | a channel of one white-space character (any of ECMAScript's) and one hex digit reads as that digit's value |
| ClientUtils.HexColorDark | client/src/lib/utils.ts:34-52 | a six-hex-digit colour is dark exactly when the luminance of its three byte values is below 128 |
| ClientUtils.RgbColorDark | client/src/lib/utils.ts:41-52 | an `rgb` colour with at least three numbers is dark exactly when the luminance of its first three numbers is below 128 |
| ServerUtils.HexDigit | server/utils/utils.go:110 | a nibble is written as a lower-case hex digit |
| ServerUtils.Hex | server/utils/utils.go:110 | hex encoding writes two lower-case hex digits per byte |
| ServerUtils.HexDigitsAt | server/utils/utils.go:110 | byte `i` is written at positions `2i` and `2i+1`, high nibble first |
| ServerUtils.Base64ToUUID | server/utils/utils.go:101-121 | the conversion succeeds exactly when the input is standard Base64 of exactly 16 bytes; it fails with the decoder's error otherwise, and with "invalid UUID length" when the length is wrong |
| ServerUtils.RemoveDashesConcat | server/utils/utils.go:112-118 | dropping dashes distributes over concatenation |
| ServerUtils.RemoveDashesNone | server/utils/utils.go:112-118 | dropping dashes from a string without any changes nothing |
| ServerUtils.FormatUuid | server/utils/utils.go:112-118 | 32 hex digits grouped 8-4-4-4-12 with dashes; meaning given by `ServerUtils.FormatUuidDashes` and `FormatUuidUndashed` |
| ServerUtils.FormatUuidDashes | server/utils/utils.go:112-118 | the 8-4-4-4-12 layout of 32 hex digits is 36 characters long, with dashes exactly at positions 8, 13, 18 and 23 and hex digits everywhere else |
| ServerUtils.JoinDash | server/utils/utils.go:112-118 | dropping the dashes of two parts joined by a dash is dropping them from each part |
| ServerUtils.FormatUuidUndashed | server/utils/utils.go:112-118 | dropping the dashes of the layout gives back the 32 hex digits |
| ServerUtils.UuidShape | server/utils/utils.go:101-121 | a converted id is 36 lower-case characters with dashes exactly at positions 8, 13, 18 and 23, and without them it is the hex of the decoded bytes in order |
| ServerUtils.LastIndexOf | server/utils/utils.go:83 | the position of the last occurrence of the character, or -1 when there is none |
| ServerUtils.IndexOf | server/utils/utils.go:83 | the position of the first occurrence of the character, or -1 when there is none |
| ServerUtils.MatchesEmailPattern | server/utils/utils.go:83-84 | the regular expression as a statement: a local part, `@`, a domain, a dot and a top-level part of two or more letters; meaning given by `ServerUtils.EmailPatternIsRegex` |
| ServerUtils.EmailPatternIsRegex | server/utils/utils.go:83-84 | testing the split at the first `@` and the last `.` decides exactly the e-mail regular expression |
| ServerUtils.ValidateEmail | server/utils/utils.go:72-85 | an address is accepted exactly when it has at most 254 characters, the address parser accepts it, and it matches the e-mail regular expression |
| ServerUtils.AcceptedEmailHasTld | server/utils/utils.go:83-84 | an accepted address ends in a dot followed by at least two letters |
| ServerUtils.RandomToken | server/utils/utils.go:63-70 | the token is the lower-case hex of `n` random bytes, `2n` characters long |
| Validators.ValidatePassword | client/src/lib/validators.ts:99-109 | a password is accepted exactly when it has 12 to 256 characters and at least one upper-case letter, lower-case letter, digit and special character |
| Validators.CharClassesDisjoint | client/src/lib/validators.ts:103-106 | no character is at once in two of the four classes (upper-case, lower-case, digit, special) |
| Validators.ValidPasswordFourKinds | client/src/lib/validators.ts:99-109 | an accepted password has an upper-case letter, a lower-case letter, a digit and a special character at four positions, and these are four pairwise different characters |
| Validators.PasswordExamples | client/src/lib/validators.ts:99-109 | examples only: a 14-character password with all four classes is accepted; a too-short one, one without an upper-case letter and the empty one are refused |
| Validators.IsValidUrl | client/src/lib/validators.ts:3-10 | a URL is valid when the parser accepts it and its protocol is `http:` or `https:`; a parse failure is `false`; used by `Validators.BadUrlRejected` and `Validators.MinimalMetaAccepted` |
| Validators.ValidateServerMeta | client/src/lib/validators.ts:12-97 | the early-return chain of checks in the source's order; meaning given by the rejection lemmas below, `Validators.AcceptedMetaGuarantees` and `Validators.MinimalMetaAccepted` |
| Validators.NonObjectRejected | client/src/lib/validators.ts:14 | a value that is not an object or an array, `null` included, is rejected |
| Validators.UrlRequired | client/src/lib/validators.ts:17 | a document without a `url`, or whose `url` is not a string, is rejected |
| Validators.PoliciesNotObjectRejected | client/src/lib/validators.ts:20-22 | a `policies` member that is present but not an object is rejected |
| Validators.PolicyUrlRejected | client/src/lib/validators.ts:24-38 | a `privacy` or `terms` link that is present but not a string, or not a valid URL, is rejected |
| Validators.PolicyExtraKeyRejected | client/src/lib/validators.ts:40-43 | a key inside `policies` other than `privacy` and `terms` is rejected |
| Validators.NonEmptyArrayPoliciesRejected | client/src/lib/validators.ts:40-43 | a non-empty array as `policies` is rejected, its index keys not being allowed names |
| Validators.RegistrationRequired | client/src/lib/validators.ts:46-48 | a document whose `registration` is missing or not an object is rejected |
| Validators.RegistrationEnabledRequired | client/src/lib/validators.ts:50-51 | a `registration` without a boolean `enabled` is rejected |
| Validators.EmailNotObjectRejected | client/src/lib/validators.ts:54-57 | an `email` block that is present but not an object is rejected |
| Validators.EmailVerificationRequired | client/src/lib/validators.ts:58 | an `email` block without a boolean `verificationRequired` is rejected |
| Validators.EmailBlacklistRequired | client/src/lib/validators.ts:59 | an `email` block whose `domainBlacklist` is missing or not an array is rejected |
| Validators.BlacklistEntryRejected | client/src/lib/validators.ts:60-61 | a `domainBlacklist` entry that is not a string is rejected |
| Validators.EmailExtraKeyRejected | client/src/lib/validators.ts:63-70 | a key inside the `email` block other than `verificationRequired` and `domainBlacklist` is rejected |
| Validators.RetentionNotNumberRejected | client/src/lib/validators.ts:73-78 | a `retentionPeriod` that is present but not a number is rejected |
| Validators.RegistrationExtraKeyRejected | client/src/lib/validators.ts:80-89 | a key inside `registration` other than `enabled`, `subscriptionRequired`, `email` and `retentionPeriod` is rejected |
| Validators.AcceptedMetaGuarantees | client/src/lib/validators.ts:12-97 | an accepted document is an object with a valid http(s) `url`, a `registration` object with a boolean `enabled`, and only the three allowed top-level keys |
| Validators.ExtraTopLevelKeyRejected | client/src/lib/validators.ts:91-94 | a top-level key other than `url`, `policies` and `registration` makes the document invalid whatever else it holds |
| Validators.BadUrlRejected | client/src/lib/validators.ts:3-10 | a `url` that does not parse, or whose protocol is not `http:` or `https:`, makes the document invalid |
| Validators.MinimalMetaAccepted | client/src/lib/validators.ts:12-97 | a document with just a valid `url` and `registration: {enabled}` is accepted |
| Validators.EmptyArrayPolicies | client/src/lib/validators.ts:20-44 | an empty array passes as `policies`, because it is an object with no keys |
| UnlockDialog.UnlockOutcome | client/src/components/login/UnlockDialog.tsx:36-56 | the result of an unlock attempt; meaning given by `UnlockDialog.UnlockOutcomeCases` |
| UnlockDialog.UnlockOutcomeCases | client/src/components/login/UnlockDialog.tsx:36-56 | a submission stops on the salt exactly when the salt is not Base64; it unlocks exactly when the key derived from the password and the master salt opens the doubly Base64-encoded challenge to the unlock-check bytes, and the key it keeps is that derived key |
| UnlockDialog.BinaryStringOfCharCodes | client/src/components/login/UnlockDialog.tsx:41 | turning a binary string into its char codes and back gives the same string |
| UnlockDialog.RegisteredPasswordUnlocks | client/src/components/login/UnlockDialog.tsx:36-48 | with inverse primitives, the salt and challenge stored at registration unlock with the registration password, and the key kept is the one registration derived |
| UnlockDialog.UnlockForm.constructor | client/src/components/login/UnlockDialog.tsx:21-26 | the dialog starts for an online user with no error, not loading, and no master key |
| UnlockDialog.UnlockForm.HandleFormSubmit | client/src/components/login/UnlockDialog.tsx:28-57 | an unreadable salt leaves the dialog loading with error and key unchanged; a matching challenge stores the key and clears the error; any other failure sets the error and keeps the key; in both of those cases loading is cleared |
| LoginFormModel.ErrorText | client/src/components/login/LoginForm.tsx:102 | the message shown is never empty: the server's message when it has one, "An unknown error occurred." otherwise |
| LoginFormModel.ToBase64 | client/src/components/login/LoginForm.tsx:96-98 | `btoa(String.fromCharCode(...bytes))` is the Base64 text of the bytes |
| LoginFormModel.RegistrationError | client/src/components/login/LoginForm.tsx:65-85 | the first failing registration check's message; meaning given by `LoginFormModel.RegistrationErrorOrder` |
| LoginFormModel.RegistrationErrorOrder | client/src/components/login/LoginForm.tsx:65-85 | each registration message is shown exactly when all earlier checks passed and its own failed, and registration proceeds exactly for a filled form whose confirmed password the policy accepts |
| LoginFormModel.RegistrationPayload | client/src/components/login/LoginForm.tsx:89-99 | the register body built from the SRP triplet, the salt and the challenge; meaning given by `LoginFormModel.RegistrationPayloadDecodes` |
| LoginFormModel.RegistrationPayloadDecodes | client/src/components/login/LoginForm.tsx:89-99 | with inverse primitives, the posted salt decodes to the master salt, the triplet decodes to the SRP triplet, and the challenge decodes and opens under the derived master key to the unlock-check bytes |
| LoginFormModel.LoginFlow | client/src/components/login/LoginForm.tsx:116-179 | the login steps: fetch the salt, run the SRP exchange, check `M2`; meaning given by `LoginFormModel.LoginGate` and `CheckedLoginProvesServer` |
| LoginFormModel.SrpExchange | client/src/components/login/LoginForm.tsx:134-176 | the `login/start` and `login/verify` round trips; meaning given by `LoginFormModel.LoginGate` and `LoginFormModel.LoginForm.Exchange` |
| LoginFormModel.LoginGate | client/src/components/login/LoginForm.tsx:116-179 | `checkLogin` runs exactly when the fields are filled, every reply succeeded and decoded, and the server's proof passes `SRP_CheckM2`; otherwise, once everything else passed, the integrity error is shown; an attempt posts at most three requests, each for the entered email |
| LoginFormModel.CheckedLoginProvesServer | client/src/components/login/LoginForm.tsx:167-176 | when the proofs fit the group's byte length, `checkLogin` runs only if the server's proof has the value the client computed |
| LoginFormModel.LoginForm.constructor | client/src/components/login/LoginForm.tsx:35-38 | the form starts in login mode with no error, no success message, not loading, and nothing sent |
| LoginFormModel.LoginForm.ToggleNewAccount | client/src/components/login/LoginForm.tsx:45-49 | toggling the mode flips only the new-account flag |
| LoginFormModel.LoginForm.Register | client/src/components/login/LoginForm.tsx:63-114 | a failed field check sets its message and sends nothing; otherwise one registration request is sent, and success resets the form, leaves registration mode and shows the created message, while failure shows the server's message; loading ends cleared and `checkLogin` never runs |
| LoginFormModel.LoginForm.Login | client/src/components/login/LoginForm.tsx:116-179 | the login branch sends exactly the requests of the login flow, shows its error, and hands the password to `checkLogin` exactly when the flow says so |
| LoginFormModel.LoginForm.Exchange | client/src/components/login/LoginForm.tsx:134-176 | the two SRP round trips after the salt send the start and verify requests of the exchange, set its error, run `checkLogin` exactly when the server's proof checks out, and clear loading |
| LoginFormModel.LoginForm.HandleFormSubmit | client/src/components/login/LoginForm.tsx:45-180 | in registration mode at most one registration request is sent and `checkLogin` never runs; in login mode the requests and `checkLogin` calls are those of the login flow |
| TapInteraction.TapDetector.constructor | client/src/hooks/useTapInteraction.ts:24-26 | the refs start at the origin with time 0, not moved, and no tracked pointer |
| TapInteraction.TapDetector.PointerDown | client/src/hooks/useTapInteraction.ts:29-38 | a non-left mouse button is ignored; a pen or a left mouse press taps at once and changes nothing else; a touch starts tracking its pointer from its position and time and clears `moved` |
| TapInteraction.TapDetector.PointerMove | client/src/hooks/useTapInteraction.ts:40-48 | a move of the tracked pointer sets `moved` once it is strictly beyond the threshold on either axis; `moved` is never cleared by a move, and nothing else changes |
| TapInteraction.TapDetector.PointerUp | client/src/hooks/useTapInteraction.ts:50-54 | the release of the tracked pointer taps exactly when it has not moved and came less than 300 ms after the press, then stops tracking; any other release changes nothing |
| TapInteraction.TapDetector.PointerCancel | client/src/hooks/useTapInteraction.ts:56-58 | a cancel stops tracking and changes nothing else |
| TapInteraction.MovedTouchDoesNotTap | client/src/hooks/useTapInteraction.ts:40-54 | a touch that once went beyond the threshold never taps, even when it is released back at its start |
| TapInteraction.QuickTouchTaps | client/src/hooks/useTapInteraction.ts:29-54 | a touch pressed and released within 300 ms without moving taps exactly once, with the release event |
| TapInteraction.CancelledTouchDoesNotTap | client/src/hooks/useTapInteraction.ts:50-58 | after a cancel, the release of the same touch fires no tap |
| AppGating.WrapperDialogs | client/src/App.tsx:15-38 | which of the login, unlock and subscription dialogs the wrapper shows; meaning given by `AppGating.WrapperDialogsExclusive` and `OfflineUserSeesSubscriptionDialog` |
| AppGating.WrapperDialogsExclusive | client/src/App.tsx:15-38 | the wrapper shows at most one of the login, subscription and unlock dialogs; it shows none exactly when a user is signed in, the key is unlocked and the subscription does not hold the user back; the login check runs only while the login dialog is up |
| AppGating.ShouldLoad | client/src/components/AppShell.tsx:29-33 | the load effect runs only with metadata, a user and a master key, and not when a required subscription is inactive; meaning given by `AppGating.TrialingLoadRefusedByServer` and `AppGating.ShellLoader.RunEffect` |
| AppGating.ShellScreen | client/src/components/AppShell.tsx:46-68 | which screen the shell renders; meaning given by `AppGating.ShellScreenOrder` |
| AppGating.ShellScreenOrder | client/src/components/AppShell.tsx:46-68 | the shell shows the unlock dialog exactly when storage, user and metadata are present without a key; it shows the main view exactly when the load effect would load; the calendar appears once events are loaded, and the spinner while saving |
| AppGating.TrialingUserSeesBoth | client/src/App.tsx:23-31 | a trialing online user on a server that requires subscriptions, once unlocked, gets the wrapper's subscription dialog over the shell's calendar |
| AppGating.TrialingLoadRefusedByServer | client/src/components/AppShell.tsx:22-37 | the shell starts loading for a trialing user, while the server's subscription check refuses that user, from the cache or after a refresh |
| AppGating.OfflineUserSeesSubscriptionDialog | client/src/App.tsx:23-31 | a local-only profile on a server that requires subscriptions gets the subscription dialog, while the shell loads its events |
| AppGating.ShellLoader.constructor | client/src/components/AppShell.tsx:16 | no load has started and no events are shown |
| AppGating.ShellLoader.RunEffect | client/src/components/AppShell.tsx:30-44 | a run of the effect first kills every earlier load, then starts a new live load exactly when the guard allows, and leaves the shown events alone |
| AppGating.ShellLoader.Resolve | client/src/components/AppShell.tsx:37-39 | a load that resolves sets the events only if it is still live |
| AppGating.SupersededLoadDiscarded | client/src/components/AppShell.tsx:35-43 | a load superseded by a later run of the effect never sets the events |
| Middleware.Recent | server/handlers/middleware.go:123-128 | the timestamps still inside the window; meaning given by `Middleware.RecentMeaning` and `RecentIdempotent` |
| Middleware.RecentMeaning | server/handlers/middleware.go:123-128 | the window filter keeps exactly the timestamps inside the window, each as often as it occurs, and never grows the list |
| Middleware.RecentIdempotent | server/handlers/middleware.go:123-128 | filtering twice at the same instant gives the same list as filtering once |
| Middleware.FilterRecent | server/handlers/middleware.go:123-128 | the filtering loop keeps exactly the in-window timestamps, in order |
| Middleware.RateLimiter.constructor | server/handlers/middleware.go:24 | the rate-limit store starts empty |
| Middleware.RateLimiter.Allow | server/handlers/middleware.go:113-147 | a request passes exactly when fewer than `maxRequests` stored timestamps are inside the window; the stored list becomes the in-window timestamps, plus this request's time only when it passed; no other address changes |
| Middleware.RateLimiter.Cleanup | server/handlers/middleware.go:45-72 | a cleanup tick filters every address's timestamps by the TTL and removes the addresses left with none |
| Middleware.AfterRequest | server/handlers/middleware.go:123-141 | the stored timestamps after one request: the window's entries, plus `now` when under the limit; meaning given by `Middleware.AfterRequestWithinLimit` and `Middleware.BurstThenReject` |
| Middleware.WithinLimit | server/handlers/middleware.go:130-138 | every address has at most `maxRequests` stored timestamps, the invariant `Middleware.AfterRequestWithinLimit` shows a request keeps |
| Middleware.AfterRequestWithinLimit | server/handlers/middleware.go:130-141 | no request takes an address over `maxRequests` stored timestamps |
| Middleware.BurstThenReject | server/handlers/middleware.go:130-138 | for any limit, an address with no timestamps in the window that sends a burst at one instant has each of its first `maxRequests` requests let through and recorded, and every later one turned away without being recorded |
| Middleware.SubCache.constructor | server/handlers/middleware.go:25 | the subscription cache starts empty |
| Middleware.CachedStatus | server/handlers/middleware.go:244-257 | the cached status of a subscription id unless it has expired; meaning given by `Middleware.SubCache.Get` and `Middleware.SetThenGet` |
| Middleware.SubCache.Get | server/handlers/middleware.go:244-257 | a cached status is returned until its expiry time and not after; an expired entry is deleted, and nothing else changes |
| Middleware.SubCache.Set | server/handlers/middleware.go:259-264 | storing a status replaces the entry for that id with one that expires five minutes later |
| Middleware.SubCache.Cleanup | server/handlers/middleware.go:74-88 | a cleanup tick removes exactly the expired entries and keeps the rest unchanged |
| Middleware.SetThenGet | server/handlers/middleware.go:244-264 | a status just set is read back until five minutes after it was set, and not after that |
| Middleware.SubscriptionDecision | server/handlers/middleware.go:169-215 | pass, deny or internal error for the subscription middleware; meaning given by `Middleware.SubscriptionPassesOnlyActive`, and `Middleware.SubscriptionCheck` computes it |
| Middleware.SubscriptionPassesOnlyActive | server/handlers/middleware.go:169-215 | when subscriptions are required, a request passes exactly with a non-empty subscription id whose cached status, or on a miss whose refreshed status, is exactly "active"; a cached "trialing" is denied |
| Middleware.SubscriptionCheck | server/handlers/middleware.go:169-215 | the middleware decides as the decision function does on the cache's answer, leaves the cache alone when nothing is required or the id is missing, and stores a refreshed status after a miss |
| Middleware.GetClientIP | server/handlers/middleware.go:273-286 | behind a proxy a trimmed header that parses as an address is used; otherwise the host part of the remote address, or the whole remote address when it does not split |
| Middleware.HeaderIgnoredWithoutProxy | server/handlers/middleware.go:273-286 | without a proxy the `X-Real-IP` header has no effect on the address used |
| AuthHandlers.Register | server/handlers/auth.go:46-107 | a user row is inserted exactly when the body parses, every field is non-empty and within its limit, and the e-mail is valid, and it holds the body's e-mail, master salt, SRP salt, verifier and challenge; a bad body or a bad length is a plain bad request, a bad e-mail gets "Invalid email address.", a duplicate "Email already in use.", and the reply succeeds only when the insert does |
| AuthHandlers.SrpSessionStore.constructor | server/handlers/auth.go:19 | the SRP session store starts empty |
| AuthHandlers.SrpSessionStore.Store | server/handlers/auth.go:202-206 | storing a session replaces the entry for its id and changes nothing else |
| AuthHandlers.SrpSessionStore.Load | server/handlers/auth.go:244 | loading finds a session exactly when its id is stored, and returns that session |
| AuthHandlers.SrpSessionStore.Delete | server/handlers/auth.go:317 | deleting removes exactly that id |
| AuthHandlers.SrpSessionStore.Cleanup | server/handlers/auth.go:27-41 | a cleanup tick keeps exactly the sessions at most five minutes old, unchanged |
| AuthHandlers.LoginStart | server/handlers/auth.go:110-223 | a missing, empty or over-long e-mail is a bad request and stores nothing; an unknown e-mail gets "Invalid credentials."; without `A` a known e-mail gets its SRP salt; with `A`, a `NewServer` failure is an internal error, a rejected `A` a bad request and a cookie failure an internal error, and otherwise the reply succeeds with the salt, the library's `B` and the new session id, which is stored with `B`, the time and the e-mail; a reply carries data exactly when it succeeds, and nothing but a completed handshake changes the store |
| AuthHandlers.LoginVerify | server/handlers/auth.go:226-330 | empty fields are a bad request; an unknown session id gets "Invalid or expired session.", a different e-mail "Invalid session." and a wrong proof "Invalid credentials."; past those checks, a failed `ComputeM2`, uuid lookup, session insert or cookie write is an internal error and success holds exactly when all of them work; any failure leaves the store unchanged; a success returns the library's `M2` for the stored session, issues an access session for the account's uuid that expires 12 hours later, and deletes exactly that SRP session |
| AuthHandlers.WrongProofKeepsSession | server/handlers/auth.go:265-273 | a wrong proof leaves the SRP session stored, so the login can be retried against it |
| AuthHandlers.CleanupKeepsOnlyFresh | server/handlers/auth.go:27-41 | after cleanup no stored session is older than the TTL, and every younger one is still stored |
| PushHandlers.Glob | server/handlers/user.go:73-76 | a host matches a pattern whose `*` stands for any run of characters; meaning given by `PushHandlers.GlobLiteral` and `GlobStarSuffix` |
| PushHandlers.GlobLiteral | server/handlers/user.go:73-76 | an allow-list pattern without `*` matches exactly the host equal to it |
| PushHandlers.GlobStarSuffix | server/handlers/user.go:73-76 | a pattern `*` followed by a literal suffix matches exactly the hosts that end in that suffix after a prefix without a newline |
| PushHandlers.EntryAdmits | server/handlers/user.go:67-82 | a trimmed, non-blank entry whose pattern matches the host; used by `PushHandlers.HostAllowed` |
| PushHandlers.Listed | server/handlers/user.go:62-88 | some entry of the allow-list admits the host; meaning given by `PushHandlers.HostAllowed`, `BlankAllowListAdmitsNothing` and `SingleHostList` |
| PushHandlers.HostAllowed | server/handlers/user.go:63-88 | the loop over the allow-list finds the host exactly when some non-blank trimmed entry matches it as a whole |
| PushHandlers.BlankAllowListAdmitsNothing | server/handlers/user.go:62-88 | an allow-list made only of white space and commas admits no host; when it is not empty it is still consulted, so every subscription is refused |
| PushHandlers.EndpointOk | server/handlers/user.go:55-59 | the endpoint parses as an absolute `https` URL; used by `PushHandlers.PushSubscribe` |
| PushHandlers.KeyOfLength | server/handlers/user.go:90-101 | a key decodes as unpadded URL-safe Base64 to exactly `n` bytes; used by `PushHandlers.PushSubscribe` |
| PushHandlers.SubscriptionOk | server/handlers/user.go:55-101 | every check before the upsert; `PushHandlers.PushSubscribe` stores a row exactly when it holds |
| PushHandlers.PushSubscribe | server/handlers/user.go:39-122 | a subscription is stored exactly when the body parses, the endpoint is an absolute https URL, its host is on the allow-list when one is set, and the auth and p256dh keys decode to 16 and 65 bytes; it is stored for the signed-in user with the keys as sent; every refusal is a bad request, and a stored one succeeds exactly when the database does |
| PushHandlers.SingleHostList | server/handlers/user.go:63-88 | an allow-list holding one literal host admits exactly that host |
| PushHandlers.PushTest | server/handlers/user.go:124-142 | only the types "notification" and "sync" send a push, and exactly those succeed; "notification" sends the title "Test Notification" with the body naming the user; "sync" sends a sync event carrying the given origin |

## Left out

- The cryptographic and encoding primitives are uninterpreted fields of `Platform.Prims`, and only their inverse laws are assumed, through `Platform.Lawful`. This covers AES-GCM, SHA-256, Argon2 and its worker, gzip, UTF-8, JSON, ISO date conversion, standard Base64 and `uuidToBase64`. We model what the code does around them, not what they compute.
- The internals of the SRP libraries are parameters. On the client, `A`, `M1`, the expected `M2` and the triplet are functions in `LoginFormModel.SrpClient`. On the server, `NewServer`, `SetA`, `B`, `CheckM1` and `ComputeM2` are functions in `AuthHandlers.SrpServerLib`. They are third-party code.
- Several Go library calls are parameters: `url.Parse`, `net.ParseIP`, `net.SplitHostPort`, `mail.ParseAddress`, `base64.RawURLEncoding` and `new URL(...)`. Their grammars are outside the core.
- I/O and persistence are reduced to values. SQL statements, database errors, `fetch` and the API context, the storage adapters, cookie sessions, Stripe, web push delivery and the JSON body parser appear only as maps, booleans or `Option` parameters that say whether a step succeeded.
- Concurrency is not modelled: `sync.Map`, mutexes, cleanup goroutines and tickers, React effect scheduling and `Promise.all` ordering. Every state machine has one logical writer, and `now` is a parameter.
- Floating point is not modelled, except for the `isColorDark` luminance, which uses exact reals. The layout works in integer minutes, so the hour-height scaling of `top` and `height` and the pixel positions of the editor are not modelled.
- Luxon is reduced to integer counts. Days are minute offsets at midnight and weekdays are counted from a Monday. Time zones, daylight saving and formatting are not modelled, and date labels are symbolic format names.
- Pure rendering is not modelled: JSX, dialogs, pickers, the sidebar and editors.
- Recurrence is not modelled, because the code has none: the event type has no repeat field.
- Randomness is passed in. Nonces, salts, new event ids, `CLIENT_ID` and the bytes of `RandomToken` are parameters.
- Strings are sequences of Unicode scalar values. Go's `len` counts UTF-8 bytes and JavaScript's `length` counts UTF-16 units; the counts agree on ASCII input.
- One Base64 decoder, `decode64` in `Platform.Prims`, stands for two different ones. The server's `base64.StdEncoding.DecodeString` (in `ServerUtils.Base64ToUUID` and the save handler) rejects missing padding and any white space other than line breaks. The browser's `atob` (in `ClientUtils.Uint8ArrayFromBase64` and the login and unlock forms) strips ASCII white space and accepts missing padding. The two can disagree on malformed text. Only the round-trip law `decode64(encode64(b)) == Some(b)` is assumed, and on that both agree.
- `GoStrings.TrimSpace` knows only the Latin-1 white space of `unicode.IsSpace`.
- `Crypt.TimingSafeEqual` folds bytes with XOR and OR on unbounded naturals. On bytes this agrees with JavaScript's 32-bit bitwise operators. Constant time is not modelled.
- `Sorting.SortBy`: the model proves the result is ordered by start and a permutation of the input, but not that the sort is stable. JavaScript's `sort` is stable.
- `DayLayout.Layout`: the contract says nothing about the first column pass. Its columns are always overwritten by the per-group pass, so they never reach the styles.
- `CalendarView.Calendar.CellPointerDown`: a day index outside the visible days returns without change. In the source, reading the missing day would throw.
- `EventsHook.CalendarEventsHook.SaveEvents`: an exception inside the save shows only as `saving` being reset with no callback. The toast it shows is left out.

## Findings

| source | as written | input that shows it | evidently intended | confidence | as-written member | corrected member |
|---|---|---|---|---|---|---|
| server/handlers/calendar.go:96-102 | The save upsert is `INSERT ... ON DUPLICATE KEY UPDATE data, updated_at`. `id` is the table's only key, and the update does not check `owner`; `SaveCalendarEvents` models the statement so. | Alice owns row `e1`; Mallory saves an "updated" change with id `e1`. The row keeps owner Alice and now holds Mallory's data. | A save changes only the saving user's rows; every other owner's rows stay as they were. | not executed | CalendarHandlers.CrossOwnerOverwrite | CalendarHandlers.SaveKeepsOtherOwners |
| client/src/components/calendar/Calendar.tsx:367-381 | `onEventEdit` (lines 367-381) and the `onEventDelete` handler (lines 533-545) call `saveIfChanged` for every user, which hands the pending change list to `saveEvents`. For an offline user, `saveEvents` stores that list as the whole offline calendar. | An offline user with events A and B edits A. The stored offline blob then holds only the one change entry, and A and B are lost. | Offline edits store the whole current calendar, as the pointer-up handler already does. | not executed | CalendarView.OfflineEditAsWrittenLosesEvents | CalendarView.OfflineEditKeepsEvents |
