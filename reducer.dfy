/** The in-memory event store of the calendar view. */
module CalendarReducer {
  import opened Types

  datatype CalendarAction =
    | SetEvents(events: seq<CalendarEvent>)
    | UpdateEvent(id: string, data: EventPatch)
    | DeleteEvent(id: string)
    | AddEvent(event: CalendarEvent)
    /** Any other action object reaching the `default` branch. */
    | OtherAction

  /** The events whose id differs from `id`, in their order. */
  function WithoutId(s: seq<CalendarEvent>, id: string): (r: seq<CalendarEvent>)
    ensures |r| <= |s|
  {
    if s == [] then []
    else (if s[0].id == id then [] else [s[0]]) + WithoutId(s[1..], id)
  }

  /** Every event with another id keeps its multiplicity; those with the id are gone. */
  lemma {:induction false} WithoutIdCounts(s: seq<CalendarEvent>, id: string)
    ensures forall e :: multiset(WithoutId(s, id))[e] == if e.id == id then 0 else multiset(s)[e]
  {
    if s != [] {
      WithoutIdCounts(s[1..], id);
      assert s == [s[0]] + s[1..];
    }
  }

  /** Filtering commutes with concatenation, so relative order is kept. */
  lemma {:induction false} WithoutIdConcat(a: seq<CalendarEvent>, b: seq<CalendarEvent>, id: string)
    ensures WithoutId(a + b, id) == WithoutId(a, id) + WithoutId(b, id)
  {
    if a != [] {
      assert (a + b)[1..] == a[1..] + b;
      assert (a + b)[0] == a[0];
      WithoutIdConcat(a[1..], b, id);
    } else {
      assert a + b == b;
    }
  }

  /** What `update` makes of a matching event: the patch over its fields, stamped `now`. */
  function Updated(ev: CalendarEvent, data: EventPatch, now: int): CalendarEvent {
    Spread(ev, data).(timestamp := now)
  }

  /** `calendarReducer`; `now` is `Date.now()`. */
  function Reduce(state: seq<CalendarEvent>, action: CalendarAction, now: int): (r: seq<CalendarEvent>)
    ensures action.SetEvents? ==> r == action.events
    ensures action.AddEvent? ==> |r| == |state| + 1 && r[..|state|] == state && r[|state|] == action.event
    ensures action.UpdateEvent? ==>
      |r| == |state|
      && forall i :: 0 <= i < |state| ==>
           r[i] == if state[i].id == action.id then Updated(state[i], action.data, now) else state[i]
    ensures action.DeleteEvent? ==> r == WithoutId(state, action.id)
    ensures action.OtherAction? ==> r == state
  {
    match action
    case SetEvents(events) => events
    case AddEvent(event) => state + [event]
    case UpdateEvent(id, data) =>
      seq(|state|, i requires 0 <= i < |state| => if state[i].id == id then Updated(state[i], data, now) else state[i])
    case DeleteEvent(id) => WithoutId(state, id)
    case OtherAction => state
  }

  /** After a delete no event carries the id, and every other event keeps its multiplicity. */
  lemma DeleteRemovesId(state: seq<CalendarEvent>, id: string, now: int)
    ensures forall e :: e in Reduce(state, DeleteEvent(id), now) ==> e.id != id
    ensures forall e :: e in state && e.id != id ==> e in Reduce(state, DeleteEvent(id), now)
  {
    var r := Reduce(state, DeleteEvent(id), now);
    WithoutIdCounts(state, id);
    forall e | e in r
      ensures e.id != id
    {
      assert multiset(r)[e] > 0;
    }
    forall e | e in state && e.id != id
      ensures e in r
    {
      assert multiset(state)[e] > 0;
    }
  }

  /** Deleting twice is deleting once. */
  lemma {:induction false} DeleteIdempotent(state: seq<CalendarEvent>, id: string)
    ensures WithoutId(WithoutId(state, id), id) == WithoutId(state, id)
  {
    if state != [] {
      DeleteIdempotent(state[1..], id);
      var w := WithoutId(state, id);
      if state[0].id != id {
        assert w == [state[0]] + WithoutId(state[1..], id);
        assert w[0] == state[0];
        assert w[1..] == WithoutId(state[1..], id);
      } else {
        assert w == WithoutId(state[1..], id);
      }
    }
  }

  /** An update of an id nobody has changes nothing. */
  lemma UpdateMissingId(state: seq<CalendarEvent>, id: string, data: EventPatch, now: int)
    requires forall e :: e in state ==> e.id != id
    ensures Reduce(state, UpdateEvent(id, data), now) == state
  {
  }

  /** Adding an event with a fresh id and then deleting that id restores the state. */
  lemma AddThenDelete(state: seq<CalendarEvent>, ev: CalendarEvent, now: int)
    requires forall e :: e in state ==> e.id != ev.id
    ensures Reduce(Reduce(state, AddEvent(ev), now), DeleteEvent(ev.id), now) == state
  {
    WithoutIdConcat(state, [ev], ev.id);
    WithoutIdAbsent(state, ev.id);
    assert WithoutId([ev], ev.id) == [] + WithoutId([], ev.id);
  }

  lemma {:induction false} WithoutIdAbsent(state: seq<CalendarEvent>, id: string)
    requires forall e :: e in state ==> e.id != id
    ensures WithoutId(state, id) == state
  {
    if state != [] {
      assert forall e :: e in state[1..] ==> e in state;
      WithoutIdAbsent(state[1..], id);
      assert state == [state[0]] + state[1..];
    }
  }

  /** A drag's update moves only `start` and `end` (and the stamp) of the matching events. */
  lemma DragUpdateKeepsContent(state: seq<CalendarEvent>, id: string, start: int, end: int, now: int)
    ensures forall i :: 0 <= i < |state| && state[i].id == id ==>
      Reduce(state, UpdateEvent(id, TimesPatch(start, end)), now)[i]
        == state[i].(start := start, end := end, timestamp := now)
  {
  }
}
