/**
 * The data model shared by the client and the server: users, calendar
 * events, their raw (JSON) and encrypted forms, pending changes and the
 * sync wire format. Luxon `DateTime` values are integer minute counts.
 */
module Types {
  import opened Wrappers

  /** The signed-in user: an account on a server, or a local-only profile. */
  datatype User =
    | OnlineUser(uuid: string, email: string, salt: string, challenge: string, subscriptionStatus: Option<string>)
    | OfflineUser

  /** A calendar event; `timestamp` is the last-modified time in milliseconds. */
  datatype CalendarEvent = CalendarEvent(
    id: string,
    start: int,
    end: int,
    title: string,
    description: Option<string>,
    color: Option<string>,
    timestamp: int)

  /** The event as JSON carries it: `start` and `end` are ISO strings. */
  datatype RawCalendarEvent = RawCalendarEvent(
    id: string,
    start: string,
    end: string,
    title: string,
    description: Option<string>,
    color: Option<string>,
    timestamp: int)

  /** Wire form of one event: base64 ciphertext plus the visible version stamp. */
  datatype EncryptedEvent = EncryptedEvent(id: string, data: string, updatedAt: int)

  /** A wire record whose `data` was decrypted into an event. */
  datatype DecryptedEvent = DecryptedEvent(id: string, data: CalendarEvent, updatedAt: int)

  datatype ChangeType = Added | Updated | Deleted

  /** A pending change: `event` for added/updated entries, `id` for deleted ones. */
  datatype EventChange = EventChange(kind: ChangeType, event: Option<CalendarEvent>, id: Option<string>)

  /** One checkpoint entry the client sends: the event id and its timestamp. */
  datatype CachedEvent = CachedEvent(id: string, ts: int)

  /** The server's sync diff. */
  datatype EventSyncResponse = EventSyncResponse(
    updated: seq<EncryptedEvent>,
    deleted: seq<string>,
    added: seq<EncryptedEvent>)

  /**
   * `Partial<CalendarEvent>`: `None` is a key the object does not have.
   * The optional fields carry their own `Option` for a present key.
   */
  datatype EventPatch = EventPatch(
    id: Option<string>,
    start: Option<int>,
    end: Option<int>,
    title: Option<string>,
    description: Option<Option<string>>,
    color: Option<Option<string>>,
    timestamp: Option<int>)

  /** `{...ev, ...patch}`: every key the patch has replaces the event's. */
  function Spread(ev: CalendarEvent, patch: EventPatch): CalendarEvent {
    CalendarEvent(
      patch.id.GetOr(ev.id),
      patch.start.GetOr(ev.start),
      patch.end.GetOr(ev.end),
      patch.title.GetOr(ev.title),
      patch.description.GetOr(ev.description),
      patch.color.GetOr(ev.color),
      patch.timestamp.GetOr(ev.timestamp))
  }

  /** The patch holding only new `start` and `end`, as a drag dispatches it. */
  function TimesPatch(start: int, end: int): EventPatch {
    EventPatch(None, Some(start), Some(end), None, None, None, None)
  }

  /**
   * The patch holding every key a full event object has. The editor's
   * object always has the `description` and `color` keys, even when their
   * value is `undefined`, so both are present in the patch.
   */
  function FullPatch(ev: CalendarEvent): EventPatch {
    EventPatch(
      Some(ev.id), Some(ev.start), Some(ev.end), Some(ev.title),
      Some(ev.description), Some(ev.color), Some(ev.timestamp))
  }

  /** Spreading a full event object over any event gives that object: every field is replaced, an undefined description or colour included. */
  lemma SpreadFullPatch(base: CalendarEvent, ev: CalendarEvent)
    ensures Spread(base, FullPatch(ev)) == ev
  {
  }

  /** A drag's patch moves the two times and nothing else. */
  lemma SpreadTimesPatch(base: CalendarEvent, start: int, end: int)
    ensures Spread(base, TimesPatch(start, end)) == base.(start := start, end := end)
  {
  }
}
