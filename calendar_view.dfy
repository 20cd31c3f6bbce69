/**
 * The calendar view's event logic: the map of pending changes and its
 * flush, new-event creation on a cell, the drag handlers, edit/delete,
 * and the per-day bucketing of events. Times are minutes ("Dates").
 */
module CalendarView {
  import opened Wrappers
  import opened Types
  import opened OrderedMap
  import opened CalendarReducer
  import opened Dates
  import EventsHook
  import opened Platform
  import EventCodec

  const SNAP_MINS := 5
  const DEFAULT_EVENT_DURATION := 60
  const DEFAULT_EVENT_NAME := "new event"

  datatype DragKind = Move | ResizeStart | ResizeEnd

  /** `dragRef` while a drag is on; pixel fields and the label are not modelled. */
  datatype DragState = DragState(
    pointerId: int,
    kind: DragKind,
    event: CalendarEvent,
    originalDay: int,
    originalStart: int,
    originalEnd: int)

  /** The key of a pending change: `change.event?.id ?? change.id`. */
  function ChangeKey(c: EventChange): Option<string> {
    if c.event.Some? then Some(c.event.value.id) else c.id
  }

  /* ------------------------------ drag arithmetic ------------------------------ */

  /** The new `[start, end]` of a drag over `dayDelta` days and `deltaMinutes` minutes. */
  function DragTimes(kind: DragKind, originalStart: int, originalEnd: int, dayDelta: int, deltaMinutes: int): (int, int) {
    var shift := dayDelta * MINUTES_PER_DAY + deltaMinutes;
    match kind
    case Move => (originalStart + shift, originalEnd + shift)
    case ResizeStart =>
      var s := originalStart + shift;
      (if s >= originalEnd then originalEnd - SNAP_MINS else s, originalEnd)
    case ResizeEnd =>
      var e := originalEnd + shift;
      (originalStart, if e <= originalStart then originalStart + SNAP_MINS else e)
  }

  /**
   * A move shifts both ends alike and keeps the duration; a resize moves
   * one end only and always leaves `start < end`, clamping to 5 minutes.
   */
  lemma DragTimesProps(kind: DragKind, originalStart: int, originalEnd: int, dayDelta: int, deltaMinutes: int)
    ensures var (s, e) := DragTimes(kind, originalStart, originalEnd, dayDelta, deltaMinutes);
      var shift := dayDelta * MINUTES_PER_DAY + deltaMinutes;
      && (kind == Move ==> s == originalStart + shift && e - s == originalEnd - originalStart)
      && (kind == ResizeStart ==> e == originalEnd && s < e && (originalStart + shift < originalEnd ==> s == originalStart + shift))
      && (kind == ResizeStart && originalStart + shift >= originalEnd ==> e - s == SNAP_MINS)
      && (kind == ResizeEnd ==> s == originalStart && s < e && (originalEnd + shift > originalStart ==> e == originalEnd + shift))
      && (kind == ResizeEnd && originalEnd + shift <= originalStart ==> e - s == SNAP_MINS)
  {
  }

  /** A cell-created event: its start snapped down to 5 minutes into the day, an hour long. */
  function NewEvent(day: int, startMinutes: int, id: string, now: int): CalendarEvent {
    var start := day + SnapMinutes(startMinutes, SNAP_MINS).value;
    CalendarEvent(id, start, start + DEFAULT_EVENT_DURATION, DEFAULT_EVENT_NAME, None, None, now)
  }

  lemma NewEventProps(day: int, startMinutes: int, id: string, now: int)
    ensures var ev := NewEvent(day, startMinutes, id, now);
      && (ev.start - day) % SNAP_MINS == 0
      && ev.start - day <= startMinutes < ev.start - day + SNAP_MINS
      && ev.end == ev.start + DEFAULT_EVENT_DURATION
      && ev.title == DEFAULT_EVENT_NAME && ev.id == id && ev.timestamp == now
      && ev.description.None? && ev.color.None?
  {
    SnapMinutesProps(startMinutes, SNAP_MINS);
  }

  /* ------------------------------ pending changes ------------------------------ */

  /** Coalescing is last-writer-wins: a later change for a key replaces the earlier, whatever their kinds. */
  lemma CoalesceLastWins(changes: OMap<Option<string>, EventChange>, first: EventChange, second: EventChange)
    requires changes.Valid()
    requires ChangeKey(first) == ChangeKey(second)
    ensures var after := changes.Set(ChangeKey(first), first).Set(ChangeKey(second), second);
      && after.Get(ChangeKey(second)) == Some(second)
      && after.keys == changes.Set(ChangeKey(second), second).keys
      && forall k :: k != ChangeKey(second) ==> after.Get(k) == changes.Get(k)
  {
  }

  /** A delete after an unflushed add of the same event leaves one "deleted" entry, not nothing. */
  lemma AddThenDeleteCoalesces(changes: OMap<Option<string>, EventChange>, ev: CalendarEvent)
    requires changes.Valid()
    requires Some(ev.id) !in changes.m
    ensures var added := EventChange(Added, Some(ev), None);
      var deleted := EventChange(Deleted, None, Some(ev.id));
      var after := changes.Set(ChangeKey(added), added).Set(ChangeKey(deleted), deleted);
      && after.Size() == changes.Size() + 1
      && after.Get(Some(ev.id)) == Some(deleted)
      && after.Values() == changes.Values() + [deleted]
  {
    var added := EventChange(Added, Some(ev), None);
    var deleted := EventChange(Deleted, None, Some(ev.id));
    var after := changes.Set(ChangeKey(added), added).Set(ChangeKey(deleted), deleted);
    assert after.keys == changes.keys + [Some(ev.id)];
    assert after.Values() == changes.Values() + [deleted];
  }

  /* ------------------------------ per-day bucketing ------------------------------ */

  /** Whether an event is shown on day number `day`: from its start day to its end day inclusive. */
  predicate Covers(e: CalendarEvent, day: int) {
    DayNumber(e.start) <= day <= DayNumber(e.end)
  }

  /** The events shown on `day`, in list order. */
  function EventsOn(events: seq<CalendarEvent>, day: int): seq<CalendarEvent> {
    if events == [] then []
    else
      var e := events[|events| - 1];
      EventsOn(events[..|events| - 1], day) + (if Covers(e, day) then [e] else [])
  }

  /** `eventMap` as it should come out: each visible day with at least one event, mapped to its events. */
  function DayMap(events: seq<CalendarEvent>, visible: set<int>): map<int, seq<CalendarEvent>> {
    map day | day in visible && EventsOn(events, day) != [] :: EventsOn(events, day)
  }

  /** An event appears in a day's list as often as in the calendar if it covers the day, else not at all. */
  lemma {:induction false} EventsOnCount(events: seq<CalendarEvent>, day: int)
    ensures forall e :: multiset(EventsOn(events, day))[e] == if Covers(e, day) then multiset(events)[e] else 0
  {
    if events != [] {
      var init := events[..|events| - 1];
      EventsOnCount(init, day);
      assert events == init + [events[|events| - 1]];
    }
  }

  /** A day's list is the calendar's events that cover it, in order. */
  lemma EventMapMeaning(events: seq<CalendarEvent>, visible: set<int>, day: int, e: CalendarEvent)
    requires day in visible && Covers(e, day) && e in events
    ensures day in DayMap(events, visible)
    ensures multiset(DayMap(events, visible)[day])[e] == multiset(events)[e]
  {
    EventsOnCount(events, day);
    assert multiset(EventsOn(events, day))[e] > 0;
  }

  /** A day off the visible set, or with no covering event, has no list. */
  lemma EventMapAbsent(events: seq<CalendarEvent>, visible: set<int>, day: int)
    requires day !in visible || forall e :: e in events ==> !Covers(e, day)
    ensures day !in DayMap(events, visible)
  {
    EventsOnCount(events, day);
    if day in visible && EventsOn(events, day) != [] {
      var e := EventsOn(events, day)[0];
      assert multiset(EventsOn(events, day))[e] > 0;
    }
  }

  /** One more event: each visible day it covers gets it appended, others are as before. */
  lemma DayMapStep(events: seq<CalendarEvent>, e: CalendarEvent, visible: set<int>,
                   after: map<int, seq<CalendarEvent>>, before: map<int, seq<CalendarEvent>>)
    requires before == DayMap(events, visible)
    requires forall k :: k in after <==> k in before || (k in visible && Covers(e, k))
    requires forall k :: k in after ==>
      after[k] == (if k in before then before[k] else []) + (if Covers(e, k) then [e] else [])
    ensures after == DayMap(events + [e], visible)
  {
    var events' := events + [e];
    assert events'[..|events'| - 1] == events;
    var want := DayMap(events', visible);
    forall k ensures k in after <==> k in want {
      assert EventsOn(events', k) == EventsOn(events, k) + (if Covers(e, k) then [e] else []);
    }
    forall k | k in after ensures after[k] == want[k] {
      assert EventsOn(events', k) == EventsOn(events, k) + (if Covers(e, k) then [e] else []);
      if k !in before {
        assert EventsOn(events, k) == [];
      }
    }
    assert after.Keys == want.Keys;
  }

  /** The inner `eventMap` loop: push `e` onto every visible day from its start day to its end day. */
  method PushOnDays(before: map<int, seq<CalendarEvent>>, e: CalendarEvent, visible: set<int>)
    returns (dayMap: map<int, seq<CalendarEvent>>)
    requires forall k :: k in before ==> k in visible
    ensures forall k :: k in dayMap <==> k in before || (k in visible && Covers(e, k))
    ensures forall k :: k in dayMap ==>
      dayMap[k] == (if k in before then before[k] else []) + (if Covers(e, k) then [e] else [])
  {
    dayMap := before;
    var day := DayNumber(e.start);
    var lastDay := DayNumber(e.end);
    while day <= lastDay
      invariant DayNumber(e.start) <= day
      invariant day <= lastDay + 1 || day == DayNumber(e.start)
      invariant forall k :: k in dayMap <==> k in before || (k in visible && DayNumber(e.start) <= k < day)
      invariant forall k :: k in dayMap ==>
        dayMap[k] == (if k in before then before[k] else []) + (if DayNumber(e.start) <= k < day then [e] else [])
      decreases lastDay - day
    {
      if day !in visible {
        day := day + 1;
        continue;
      }
      if day !in dayMap {
        dayMap := dayMap[day := []];
      }
      dayMap := dayMap[day := dayMap[day] + [e]];
      day := day + 1;
    }
  }

  /** The `eventMap` loops: every visible day from each event's start day to its end day gets the event pushed. */
  method EventMap(events: seq<CalendarEvent>, visibleDays: seq<int>) returns (dayMap: map<int, seq<CalendarEvent>>)
    ensures dayMap == DayMap(events, set d | d in visibleDays :: DayNumber(d))
  {
    var visible := set d | d in visibleDays :: DayNumber(d);
    dayMap := map[];
    var i := 0;
    while i < |events|
      invariant 0 <= i <= |events|
      invariant dayMap == DayMap(events[..i], visible)
    {
      var e := events[i];
      assert events[..i + 1] == events[..i] + [e];
      var before := dayMap;
      dayMap := PushOnDays(before, e, visible);
      DayMapStep(events[..i], e, visible, dayMap, before);
      i := i + 1;
    }
    assert events[..i] == events;
  }

  /* ------------------------------ the view ------------------------------ */

  class Calendar {
    var events: seq<CalendarEvent>
    var changes: OMap<Option<string>, EventChange>
    var drag: Option<DragState>
    var isDragging: bool
    /** The batches handed to `saveEvents`, in call order. */
    var saves: seq<EventsHook.SaveBatch>
    /** `user?.type === "online"`. */
    const online: bool

    ghost predicate Valid()
      reads this
    {
      changes.Valid()
    }

    constructor (online: bool, events: seq<CalendarEvent>)
      ensures Valid() && this.online == online && this.events == events
      ensures changes.keys == [] && drag.None? && !isDragging && saves == []
    {
      this.online := online;
      this.events := events;
      changes := Empty();
      drag := None;
      isDragging := false;
      saves := [];
    }

    /** `updateChange`. */
    method UpdateChange(c: EventChange)
      requires Valid()
      modifies this
      ensures Valid()
      ensures changes == old(changes).Set(ChangeKey(c), c)
      ensures events == old(events) && drag == old(drag) && isDragging == old(isDragging) && saves == old(saves)
    {
      changes := changes.Set(ChangeKey(c), c);
    }

    /** `saveIfChanged`: one save of every pending change, then an empty map; nothing when none is pending. */
    method SaveIfChanged()
      requires Valid()
      modifies this
      ensures Valid()
      ensures old(changes).Size() > 0 ==>
        saves == old(saves) + [EventsHook.ChangeList(old(changes).Values())] && changes.keys == []
      ensures old(changes).Size() == 0 ==> saves == old(saves) && changes == old(changes)
      ensures events == old(events) && drag == old(drag) && isDragging == old(isDragging)
    {
      if changes.Size() > 0 {
        saves := saves + [EventsHook.ChangeList(changes.Values())];
        changes := Empty();
      }
    }

    /** The save after an edit or delete: pending changes online, every event offline, as pointer-up does. */
    method SaveAfterEdit()
      requires Valid()
      modifies this
      ensures Valid()
      ensures online ==> old(changes).Size() > 0 ==>
        saves == old(saves) + [EventsHook.ChangeList(old(changes).Values())] && changes.keys == []
      ensures online ==> old(changes).Size() == 0 ==> saves == old(saves) && changes == old(changes)
      ensures !online ==> saves == old(saves) + [EventsHook.EventList(events)] && changes == old(changes)
      ensures events == old(events) && drag == old(drag) && isDragging == old(isDragging)
    {
      if online {
        SaveIfChanged();
      } else {
        saves := saves + [EventsHook.EventList(events)];
      }
    }

    /**
     * `onCellPointerDown` on day column `dayIndex`, `startMinutes` below
     * the top of the grid; `newId` is `crypto.randomUUID()`.
     */
    method CellPointerDown(button: int, pointerId: int, dayIndex: int, startMinutes: int, visibleDays: seq<int>, newId: string, now: int)
      requires Valid()
      modifies this
      ensures Valid()
      ensures saves == old(saves)
      ensures button != 0 || !(0 <= dayIndex < |visibleDays|) ==>
        events == old(events) && changes == old(changes) && drag == old(drag) && isDragging == old(isDragging)
      ensures button == 0 && 0 <= dayIndex < |visibleDays| ==>
        var ev := NewEvent(visibleDays[dayIndex], startMinutes, newId, now);
        && events == Reduce(old(events), AddEvent(ev), now)
        && changes == old(changes).Set(Some(newId), EventChange(Added, Some(ev), None))
        && drag == Some(DragState(pointerId, ResizeEnd, ev, dayIndex, ev.start, ev.start))
        && isDragging
    {
      if button != 0 {
        return;
      }
      if !(0 <= dayIndex < |visibleDays|) {
        return;
      }
      var start := visibleDays[dayIndex] + SnapMinutes(startMinutes, SNAP_MINS).value;
      var end := start + DEFAULT_EVENT_DURATION;
      var ev := CalendarEvent(newId, start, end, DEFAULT_EVENT_NAME, None, None, now);
      isDragging := true;
      events := Reduce(events, AddEvent(ev), now);
      UpdateChange(EventChange(Added, Some(ev), None));
      drag := Some(DragState(pointerId, ResizeEnd, ev, dayIndex, start, start));
    }

    /** `onPointerDown` on an event block: start a move or resize of `event`. */
    method PointerDown(pointerId: int, kind: DragKind, event: CalendarEvent, dayIndex: int)
      requires Valid()
      modifies this
      ensures Valid()
      ensures drag == Some(DragState(pointerId, kind, event, dayIndex, event.start, event.end)) && isDragging
      ensures events == old(events) && changes == old(changes) && saves == old(saves)
    {
      isDragging := true;
      drag := Some(DragState(pointerId, kind, event, dayIndex, event.start, event.end));
    }

    /** The start and end a drag gives: a move shifts both, a resize one end, clamped to 5 minutes. */
    static method NewTimes(st: DragState, dayDelta: int, deltaMinutes: int) returns (newStart: int, newEnd: int)
      ensures (newStart, newEnd) == DragTimes(st.kind, st.originalStart, st.originalEnd, dayDelta, deltaMinutes)
    {
      var shift := dayDelta * MINUTES_PER_DAY + deltaMinutes;
      newStart := st.originalStart;
      newEnd := st.originalEnd;
      if st.kind == Move {
        newStart := st.originalStart + shift;
        newEnd := st.originalEnd + shift;
      } else if st.kind == ResizeStart {
        newStart := st.originalStart + shift;
        if newStart >= newEnd {
          newStart := newEnd - SNAP_MINS;
        }
      } else {
        newEnd := st.originalEnd + shift;
        if newEnd <= newStart {
          newEnd := newStart + SNAP_MINS;
        }
      }
    }

    /**
     * `onGlobalPointerMove`: `dayIndex` is the column under the pointer
     * (`None` when there is none), `offsetMinutes` the pointer's offset
     * from where the drag began.
     */
    method PointerMove(pointerId: int, dayIndex: Option<int>, offsetMinutes: int, visibleDays: seq<int>, now: int)
      requires Valid()
      modifies this
      ensures Valid()
      ensures drag == old(drag) && isDragging == old(isDragging) && saves == old(saves)
      ensures (old(drag).None? || old(drag).value.pointerId != pointerId || dayIndex.None?
               || !(0 <= dayIndex.value < |visibleDays|)) ==>
        events == old(events) && changes == old(changes)
      ensures old(drag).Some? && old(drag).value.pointerId == pointerId && dayIndex.Some? && 0 <= dayIndex.value < |visibleDays| ==>
        var st := old(drag).value;
        var dayDelta := DayNumber(visibleDays[dayIndex.value]) - DayNumber(st.originalStart);
        var (s, e) := DragTimes(st.kind, st.originalStart, st.originalEnd, dayDelta, SnapMinutes(offsetMinutes, SNAP_MINS).value);
        if st.event.start != s || st.event.end != e then
          && events == Reduce(old(events), UpdateEvent(st.event.id, TimesPatch(s, e)), now)
          && changes == old(changes).Set(Some(st.event.id), EventChange(Updated, Some(st.event.(start := s, end := e, timestamp := now)), None))
        else events == old(events) && changes == old(changes)
    {
      if drag.None? || drag.value.pointerId != pointerId {
        return;
      }
      var st := drag.value;
      if dayIndex.None? || !(0 <= dayIndex.value < |visibleDays|) {
        return;
      }
      var dayDate := visibleDays[dayIndex.value];
      var deltaMinutes := SnapMinutes(offsetMinutes, SNAP_MINS).value;
      var dayDelta := DayNumber(dayDate) - DayNumber(st.originalStart);
      var newStart, newEnd := NewTimes(st, dayDelta, deltaMinutes);
      var newEvent := st.event.(start := newStart, end := newEnd, timestamp := now);
      if st.event.start != newStart || st.event.end != newEnd {
        events := Reduce(events, UpdateEvent(st.event.id, TimesPatch(newStart, newEnd)), now);
        UpdateChange(EventChange(Updated, Some(newEvent), None));
      }
    }

    /** `onGlobalPointerUp`: ends the drag; online flushes pending changes, offline saves every event. */
    method PointerUp(pointerId: int)
      requires Valid()
      modifies this
      ensures Valid()
      ensures events == old(events)
      ensures !(old(drag).Some? && old(drag).value.pointerId == pointerId) ==>
        drag == old(drag) && isDragging == old(isDragging) && saves == old(saves) && changes == old(changes)
      ensures old(drag).Some? && old(drag).value.pointerId == pointerId ==>
        && drag.None? && !isDragging
        && (online && old(changes).Size() > 0 ==>
              saves == old(saves) + [EventsHook.ChangeList(old(changes).Values())] && changes.keys == [])
        && (online && old(changes).Size() == 0 ==> saves == old(saves) && changes == old(changes))
        && (!online ==> saves == old(saves) + [EventsHook.EventList(events)] && changes == old(changes))
    {
      if drag.Some? && drag.value.pointerId == pointerId {
        drag := None;
        isDragging := false;
        SaveAfterEdit();
      }
    }

    /** `onEventEdit`, with the offline save made as pointer-up makes it (see `EventEditAsWritten`). */
    method EventEdit(event: CalendarEvent, now: int)
      requires Valid()
      modifies this
      ensures Valid()
      ensures events == Reduce(old(events), UpdateEvent(event.id, FullPatch(event)), now)
      ensures drag == old(drag) && isDragging == old(isDragging)
      ensures var pending := old(changes).Set(Some(event.id), EventChange(Updated, Some(event), Some(event.id)));
        && (online ==> saves == old(saves) + [EventsHook.ChangeList(pending.Values())] && changes.keys == [])
        && (!online ==> saves == old(saves) + [EventsHook.EventList(events)] && changes == pending)
    {
      events := Reduce(events, UpdateEvent(event.id, FullPatch(event)), now);
      UpdateChange(EventChange(Updated, Some(event), Some(event.id)));
      SaveAfterEdit();
    }

    /** `onEventEdit` as written: it flushes the change map whether or not the user is online. */
    method EventEditAsWritten(event: CalendarEvent, now: int)
      requires Valid()
      modifies this
      ensures Valid()
      ensures events == Reduce(old(events), UpdateEvent(event.id, FullPatch(event)), now)
      ensures var pending := old(changes).Set(Some(event.id), EventChange(Updated, Some(event), Some(event.id)));
        saves == old(saves) + [EventsHook.ChangeList(pending.Values())] && changes.keys == []
    {
      events := Reduce(events, UpdateEvent(event.id, FullPatch(event)), now);
      UpdateChange(EventChange(Updated, Some(event), Some(event.id)));
      SaveIfChanged();
    }

    /** `onEventDelete`, with the offline save made as pointer-up makes it (see `EventDeleteAsWritten`). */
    method EventDelete(id: string, now: int)
      requires Valid()
      modifies this
      ensures Valid()
      ensures events == Reduce(old(events), DeleteEvent(id), now)
      ensures drag == old(drag) && isDragging == old(isDragging)
      ensures var pending := old(changes).Set(Some(id), EventChange(Deleted, None, Some(id)));
        && (online ==> saves == old(saves) + [EventsHook.ChangeList(pending.Values())] && changes.keys == [])
        && (!online ==> saves == old(saves) + [EventsHook.EventList(events)] && changes == pending)
    {
      events := Reduce(events, DeleteEvent(id), now);
      UpdateChange(EventChange(Deleted, None, Some(id)));
      SaveAfterEdit();
    }

    /** `onEventDelete` as written: it flushes the change map whether or not the user is online. */
    method EventDeleteAsWritten(id: string, now: int)
      requires Valid()
      modifies this
      ensures Valid()
      ensures events == Reduce(old(events), DeleteEvent(id), now)
      ensures var pending := old(changes).Set(Some(id), EventChange(Deleted, None, Some(id)));
        saves == old(saves) + [EventsHook.ChangeList(pending.Values())] && changes.keys == []
    {
      events := Reduce(events, DeleteEvent(id), now);
      UpdateChange(EventChange(Deleted, None, Some(id)));
      SaveIfChanged();
    }
  }

  /* ---------------------------- offline edit finding ---------------------------- */

  /**
   * As written, an offline edit stores the encrypted change list as the
   * whole offline collection. Two offline calendars with the same pending
   * changes, whose events still differ after the same edit, hand the same
   * batch to `saveEvents`; their hooks then store the same blob, so the
   * stored collection decrypts to at most one of the two calendars.
   */
  method OfflineEditAsWrittenLosesEvents(p: Prims, c1: Calendar, c2: Calendar,
                                         h1: EventsHook.CalendarEventsHook, h2: EventsHook.CalendarEventsHook,
                                         event: CalendarEvent, now: int,
                                         post: seq<EventsHook.PayloadEntry> -> bool, nonces: nat -> Nonce, iv: Nonce)
    requires c1 != c2 && c1.Valid() && c2.Valid() && !c1.online && !c2.online
    requires c1.changes == c2.changes
    requires Reduce(c1.events, UpdateEvent(event.id, FullPatch(event)), now)
          != Reduce(c2.events, UpdateEvent(event.id, FullPatch(event)), now)
    requires h1 != h2 && h1.hasStorage && h2.hasStorage
    requires h1.masterKey.Some? && h1.masterKey == h2.masterKey
    requires !(h1.user.Some? && h1.user.value.OnlineUser?) && !(h2.user.Some? && h2.user.value.OnlineUser?)
    modifies c1, c2, h1, h2
    ensures c1.events != c2.events
    ensures |c1.saves| > 0 && |c2.saves| > 0
    ensures var pending := old(c1.changes).Set(Some(event.id), EventChange(Updated, Some(event), Some(event.id)));
      c1.saves[|c1.saves| - 1] == c2.saves[|c2.saves| - 1] == EventsHook.ChangeList(pending.Values())
    ensures EventsHook.OFFLINE_EVENTS in h1.store && EventsHook.OFFLINE_EVENTS in h2.store
    ensures h1.store[EventsHook.OFFLINE_EVENTS] == h2.store[EventsHook.OFFLINE_EVENTS]
    ensures var key := h1.masterKey.value;
      EventCodec.DecryptOfflineEvents(p, h1.store[EventsHook.OFFLINE_EVENTS], key) != Some(c1.events) ||
      EventCodec.DecryptOfflineEvents(p, h2.store[EventsHook.OFFLINE_EVENTS], key) != Some(c2.events)
  {
    var pending := c1.changes.Set(Some(event.id), EventChange(Updated, Some(event), Some(event.id)));
    assert pending.Get(Some(event.id)).Some?;
    assert Some(event.id) in pending.keys;
    c1.EventEditAsWritten(event, now);
    c2.EventEditAsWritten(event, now);
    var batch := c1.saves[|c1.saves| - 1];
    assert batch == EventsHook.ChangeList(pending.Values());
    assert EventsHook.BatchSize(batch) > 0;
    var _ := h1.SaveEvents(p, batch, post, nonces, iv);
    var _ := h2.SaveEvents(p, batch, post, nonces, iv);
  }

  /**
   * The corrected edit, by contrast: offline it hands every event to
   * `saveEvents`, and what the hook stores decrypts to the calendar as
   * it now is (when there is an event to store at all).
   */
  method OfflineEditKeepsCalendar(p: Prims, c: Calendar, h: EventsHook.CalendarEventsHook,
                                  event: CalendarEvent, now: int,
                                  post: seq<EventsHook.PayloadEntry> -> bool, nonces: nat -> Nonce, iv: Nonce)
    requires Platform.Lawful(p)
    requires c.Valid() && !c.online
    requires h.hasStorage && h.masterKey.Some? && !(h.user.Some? && h.user.value.OnlineUser?)
    modifies c, h
    ensures c.events == Reduce(old(c.events), UpdateEvent(event.id, FullPatch(event)), now)
    ensures |c.saves| > 0 && c.saves[|c.saves| - 1] == EventsHook.EventList(c.events)
    ensures |c.events| > 0 ==> EventsHook.OFFLINE_EVENTS in h.store
    ensures |c.events| > 0 ==>
      EventCodec.DecryptOfflineEvents(p, h.store[EventsHook.OFFLINE_EVENTS], h.masterKey.value) == Some(c.events)
  {
    c.EventEdit(event, now);
    var batch := c.saves[|c.saves| - 1];
    var _ := h.SaveEvents(p, batch, post, nonces, iv);
    if |c.events| > 0 {
      EventCodec.DecryptOfflineInvertsEncrypt(p, c.events, h.masterKey.value, iv);
    }
  }

  /** With the offline save of every event, what the hook stores decrypts to the calendar as it now is. */
  lemma OfflineEditKeepsEvents(p: Prims, key: Key, iv: Nonce, calendar: seq<CalendarEvent>)
    requires Platform.Lawful(p)
    ensures EventCodec.DecryptOfflineEvents(p, EventsHook.OfflineBlob(p, EventsHook.EventList(calendar), key, iv), key) == Some(calendar)
  {
    EventCodec.DecryptOfflineInvertsEncrypt(p, calendar, key, iv);
  }
}
